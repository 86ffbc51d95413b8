# Verified model of the printer client

This project models the stateful core of a Bambu Lab printer client and proves its contracts with Dafny.
`dafny verify dfyconfig.toml` checks all of it. Source paths below are relative to the client's repository.

What is modelled:

- **Camera stream** (`CameraFormat`, `CameraStream`): the resumable reader of the length-prefixed JPEG stream, over a
  transport that delivers any number of bytes or fails at any read, proved against a pure parser.
- **Command outcomes** (`SequenceIds`, `CommandTracking`, `TrackerFacts`, `MessageBuffer`, `MessageWait`,
  `ClientSpec`, `ClientInvariant`, `CommandOutcomes`, `HandleArcs`, `OutcomeDelivery`, `CommandAnswers`,
  `PrinterClient`): the tracker's three queues, the byte-bounded message buffer, the waits, deadlines, reconnects and the
  sequence counter.
  `ClientSpec` states every call as a function on a state with a history. The classes update their fields in place and
  are proved equal to those functions, and the promises are proved over every run of calls.
- **Tray matching** (`TrayMatching`, `TrayDistinctness`, `TrayBands`, `AmsDerivation`, `DerivedDistinctness`,
  `DerivationMeaning`): the greedy match, its candidates, the derived mapping and what its array says.
- **Mapping arrays** (`AmsAddresses`, `AmsMapping`): the two encodings of one allocation list, the external-spool
  interlocks and the pool check by bitmask and popcount.
- **State across connections** (`ConnectionCache`, `TelemetryCache`, `JobPlate`, `StartHistory`, `AwaitedStart`,
  `PolledHistory`, `PolledReadings`, `HomingWait`, `FtpsSlot`, `ConnectAll`): generation stamps, the plate of the running
  job, the histories of start commands and of polled messages, the homing wait, and the FTPS session and configuration slots.
- **Arithmetic and the documentation index** (`RtpTimestamps`, `DocIndex`, `DocResolve`).

`Wrappers` and `Sequences` hold the `Option`, `Result` and sequence functions the others share.

## How to read the client model

The network, the clock and the printer are parameters of a call: what a dial would do, the messages the wire delivers
with the clock after each, and the failure that ends it. Every theorem about runs holds for every choice of them.
`Valid` in `ClientInvariant` is kept by every call. It says that the counter is where the walk from the
last connection boundary puts it, that without a session nothing is pending, that the queues keep their bounds, and
that the commands tracked are, as a multiset, those pending, ready and delivered whenever their handles are distinct.
Results that need the ids on the wire to be distinct ask for no more than a cycle of ids (2^31 - 30001) minted since the
latest boundary, and `HandleArcs` says when handles are distinct over a whole life.

`events` is what reached the cache, together with every accepted start command that left the client without reaching it.
Each is tagged with its place among the messages received (`received`). `RunAccounts` shows that every accepted start
received is either in this log, once, or still buffered. The results about the start received last are over `received`,
so they also cover one that is still buffered, and one that a call took before an older, buffered one.

`polledAt` are the places of the messages that `poll_telemetry` took and `goneAt` of those that another call took or that
were lost. `RunLogsPolls` shows that each message received is in one place, and that what reached the cache is what the
messages polled say, in their order. The readings are stated over those messages: `ReadingsOfRun`.

What an answer means is stated a second time without the functions that compute it, over the bytes, the messages, the clock,
the ids and the telemetry: `IsFate` in `CameraFormat`, and the modules `CommandAnswers`, `PolledHistory`, `PolledReadings`,
`TrayBands` and `DerivationMeaning`.

## Where the code and its documentation part

Each has a lemma with the exact condition, and where useful a concrete witness.

- Messages read by a request-response wait are kept only while they fit 2 MiB, because `push_pending` evicts the oldest
  ones by size (`src/mqtt/client/pending.rs:57-77`). The wait conserves messages exactly when they all fit:
  `FitIsLosslessIff`, `PollUntilConserves`. Any two messages fit, as a frame over 1 MiB is rejected
  (`src/mqtt/client/frame.rs:209-213`), and `EvictionLosesMessage` has three that do not.
- Handles are told apart by their id, but a reseed on reconnect can mint an id again (`src/client/mod.rs:453-470`).
  `ReseedCanRepeatHandle` gives two commands with one handle. `await_ack` then answers the second with the outcome
  of the first and leaves the second pending. `AwaitSettlesIffHandleFresh` gives the condition.
- A payload that calls itself a status push and also carries an echo under another wrapper is a report to
  `poll_telemetry` and an answer to `await_ack`: `PushCarryingEcho`, with the condition in `ClassifyAnswersIff`.
- `connect_all` is documented to end in the same state as the single connects (`src/client/connect.rs:776-782`). Two of
  its channels do not. With a poisoned FTPS session it does not attempt FTPS, while `ensure_ftps` redials:
  `ConnectAllMatchesEnsureIff`, and `PoisonedSessionIsNotRedialled` for a run that ends so. On an MQTT session that another
  call dialled it does not fetch the firmware version, while `connect_mqtt` does: `ConnectAllMatchesConnectIff`, and
  `LazySessionIsNotPrimed` for such a session.
- A start command is promised to be known to the client that published it (`src/client/job.rs:10-14`), but only
  `poll_telemetry` records one (`src/client/telemetry.rs:328-332`). When `await_ack` takes the accepted echo, as the
  command-line client does (`src/bin/bambino-cli/storage.rs:1273-1278`), the cache keeps an older start of the same file
  and answers its plate: `OlderStartStaysTrusted`. So it does while the newer echo waits in the buffer:
  `BufferedStartIsNotAnswered`. `AnswerIsLatestStartIff` and `LatestStartOfRunIsTrustedIff` give the
  condition, and `OnlyPollingRecordsStarts` the calls. An accepted start that names no plate or no file also leaves the
  older one in place.
- The connection generation is a `u32` that wraps. A stamp is read as fresh again after a positive multiple of 2^32
  boundaries: `HomeFlagStaleIff`, and `FlagAnswersAgain` for the first time it happens.
- `_resolve` cuts a reference at its last `::`. Where two separators overlap, in `:::`, it steps over the earlier one and
  can miss the longest indexed prefix: `LookupIsLongestIff`.

## Model

| member | source | states |
|---|---|---|
| CameraFormat.ParseResumes | src/camera/binary.rs:213-318 | parsing a stream that arrives in two parts gives the outcomes of the first part followed by those of the kept partial frame with the rest, so only the partial frame has to survive a timeout |
| CameraFormat.ParseIsMonotone | src/camera/binary.rs:213-318 | bytes that arrive later never change the outcomes already returned |
| CameraFormat.PartialAdvances | src/camera/binary.rs:243-318 | bytes that do not complete the frame only extend the partial frame |
| CameraFormat.PartialCompletes | src/camera/binary.rs:243-318 | the bytes that complete the frame yield exactly its outcome and leave the reader at a frame boundary |
| CameraFormat.ParseEncodeAll | src/camera/binary.rs:243-315 | round trip with resynchronisation: any interleaving of good, empty, oversized and marker-less frames yields one matching outcome each and leaves the tail untouched |
| CameraFormat.StreamIsEncoding | src/camera/binary.rs:224-318 | every byte stream is the encoding of the frames whose outcomes were returned, followed by exactly the partial frame |
| CameraFormat.EncodeFrameOf | src/camera/binary.rs:243-294 | reading one frame off the wire and encoding it again restores its bytes, header padding included |
| CameraFormat.FateIsOutcome | src/camera/binary.rs:246-294 | every payload has one fate: told empty when it is, too large above the limit, handed out when it is FF D8, anything, FF D9 within the limit, and told to lack the markers otherwise |
| CameraFormat.EncodeIsWire | src/camera/binary.rs:246-255 | on the wire a frame is its length in four bytes, lowest first, twelve more header bytes and the payload |
| CameraFormat.ParseTells | src/camera/binary.rs:224-318 | what is parsed off any stream is the fate of the whole frames it begins with, one for each and in order |
| CameraFormat.ReadersAgreeWithSender | src/camera/binary.rs:213-318 | a reader that consumed any prefix of what a peer sent has told the fate of the first frames, one for each and in order, and of all of them once everything arrived |
| CameraStream.Transport.ReadChunk | src/camera/binary.rs:335-348 | what a low-level read may do: deliver 1 to `want` bytes in stream order, or fail and consume nothing |
| CameraStream.Fill | src/camera/binary.rs:335-348 | on success and on failure every byte consumed is in the buffer, in order, after what was there, and it fails exactly when the buffer is not full |
| CameraStream.BinaryCameraStream.constructor | src/camera/binary.rs:132-138 | a new reader has returned nothing and is at a frame boundary |
| CameraStream.BinaryCameraStream.ReadNextFrame | src/camera/binary.rs:224-318 | after every call, timed out or not, the outcomes handed out so far are the fates of the frames consumed, one for each and in order, and a delivered one leaves no byte over; the read state is exactly the partial frame; no byte is lost or invented; buffer and drain counters stay in bounds |
| CameraStream.BinaryCameraStream.ContinueHeader | src/camera/binary.rs:243-275 | completing a header keeps that invariant, and only an empty frame is delivered from it |
| CameraStream.BinaryCameraStream.ContinuePayload | src/camera/binary.rs:276-294 | completing a payload keeps that invariant and delivers the fate of the payload that was read |
| CameraStream.BinaryCameraStream.ContinueDiscarding | src/camera/binary.rs:295-315 | draining an oversized payload, in chunks and over any number of calls, ends exactly at the next frame |
| CameraStream.BinaryCameraStream.AgreesWithSender | src/camera/binary.rs:213-318 | seen from the peer: each outcome a reader has handed out is the fate of the frame sent in its place |
| SequenceIds.FromSeed | src/client/mod.rs:97-101 | every clock reading is mapped into the mintable range |
| SequenceIds.SeedsDiffer | src/client/mod.rs:97-101 | clock readings less than a cycle apart give different counters, from 30000 on and below the 32-bit limit |
| SequenceIds.MintedIsCyclic | src/client/mod.rs:438-451 | the k-th id after counter c is FLOOR + ((c - FLOOR + k) mod (MAX - FLOOR)) |
| SequenceIds.MintedRepeatsOnlyAfterCycle | src/client/mod.rs:438-451 | of any MAX - FLOOR consecutive ids no two are equal, and the next one repeats the first |
| SequenceIds.ApartIffDisjoint | src/client/mod.rs:438-470 | two connections mint no common id exactly when neither reaches the first id of the other around the cycle |
| CommandTracking.CommandTracker.Track | src/client/command.rs:325-348 | tracks an echoing command, and a full queue gives its oldest command the outcome timed out |
| CommandTracking.CommandTracker.TakeAnswered | src/client/command.rs:350-357 | removes the oldest pending command the echo answers and no other |
| CommandTracking.CommandTracker.NextUnanswered | src/client/command.rs:359-373 | a queued outcome first, else the oldest pending command past its deadline, removed |
| CommandTracking.CommandTracker.ConnectionEnded | src/client/command.rs:375-382 | every pending command becomes a queued connection-lost outcome, in order |
| CommandTracking.CommandTracker.Remember | src/client/command.rs:384-390 | appends to the memory of delivered outcomes, dropping the oldest when full |
| CommandTracking.CommandTracker.TakeKnown | src/client/command.rs:392-401 | a queued outcome is returned and consumed, a remembered one is returned and kept |
| CommandTracking.CommandTracker.Forget | src/client/command.rs:408-411 | removes every pending entry under the handle and nothing else |
| TrackerFacts.TrackHolds | src/client/command.rs:325-348 | tracking adds one command to those pending or ready, also when it evicts |
| TrackerFacts.TakeAnsweredReleases | src/client/command.rs:350-357 | an echo releases at most the one command returned |
| TrackerFacts.NextUnansweredReleases | src/client/command.rs:359-373 | handing out an outcome releases exactly the command it is for |
| TrackerFacts.ConnectionEndedHolds | src/client/command.rs:375-382 | losing the connection loses no command |
| TrackerFacts.TakeKnownReleases | src/client/command.rs:392-401 | answering from memory releases nothing, answering from the queue releases that command |
| TrackerFacts.ForgetReleases | src/client/command.rs:408-411 | with distinct ids, forgetting drops exactly one pending entry |
| TrackerFacts.ForgetHolds | src/client/command.rs:408-411 | forgetting a command drops one entry when it is the only one pending under its handle, and never less |
| TrackerFacts.EchoAnswersOne | src/client/command.rs:350-357 | with distinct ids an echo answers at most one pending command, and takes exactly that one |
| MessageBuffer.FitIsLongestSuffix | src/mqtt/client/pending.rs:44-77 | what eviction keeps is the longest run of newest messages that fits the byte limit |
| MessageBuffer.FitIsLosslessIff | src/mqtt/client/pending.rs:44-77 | buffering drops nothing exactly when everything fits 2 MiB |
| MessageBuffer.FitAppend | src/mqtt/client/pending.rs:57-77 | evicting message by message leaves what one eviction at the end would |
| MessageBuffer.PendingMessages.PushPending | src/mqtt/client/pending.rs:57-77 | the buffer becomes the longest fitting suffix of its old content and the message |
| MessageBuffer.PendingMessages.TakePendingMatching | src/mqtt/client/pending.rs:79-100 | removes the first match and leaves the others in order |
| MessageBuffer.PendingMessages.TakePending | src/mqtt/client/pending.rs:102-107 | pops the oldest message |
| MessageWait.WaitReads | src/client/mod.rs:513-541 | a wait ends at the first match, at the end of its budget or at a failure, never before; what was evicted, followed by what is buffered, is the old buffer followed by every unmatched message |
| MessageWait.PollUntilConserves | src/client/mod.rs:493-541 | a wait that cannot dial changes nothing; otherwise, on the session it had or dialled, whether it matches, times out or fails, it takes out only the claimed message and appends the unmatched ones in order; all are kept exactly when they fit; without a real clock at most 200 are read |
| MessageWait.NoMatchLeftBehind | src/client/mod.rs:513-541 | a wait that ends without a match leaves no message in the buffer that would have matched |
| MessageBuffer.TwoMessagesFit | src/mqtt/client/frame.rs:20-20 | any two messages that can be received fit the buffer together |
| MessageWait.EvictionLosesMessage | src/mqtt/client/pending.rs:44-77 | of three messages as large as can be received, a wait keeps only the last two |
| ClientInvariant.NewClientIsValid | src/client/mod.rs:219-241 | a new client satisfies the invariant |
| ClientInvariant.DispatchKeeps | src/client/mod.rs:575-618 | publishing keeps the invariant, failed dials and failed publishes included |
| ClientInvariant.PollKeeps | src/client/telemetry.rs:176-241 | polling for an event keeps it |
| ClientInvariant.PollUntilKeeps | src/client/mod.rs:493-541 | a request-response wait keeps it |
| ClientInvariant.AwaitKeeps | src/client/telemetry.rs:243-299 | waiting for an outcome keeps it |
| ClientInvariant.InstallKeeps | src/client/connect.rs:286-314 | a new session, its boundary, reseed and first id keep it |
| ClientInvariant.GetVersionKeeps | src/client/ams.rs:397-445 | the version request keeps it |
| ClientInvariant.StepKeeps | src/client/connect.rs:263-314 | every call keeps the invariant, whatever the network, the clock and the printer do in it |
| ClientInvariant.RunKeeps | src/client/command.rs:310-412 | over every run nothing is pending without a session, pending stays within 200 and the memory is the last 32 outcomes; the pending ids are distinct while the connection has minted no more than a cycle; nothing is pending, ready or delivered more often than it was tracked, and exactly as often when handles are distinct |
| CommandOutcomes.ExactlyOneOutcome | src/client/command.rs:3-11 | at every point of every run whose handles are distinct, a command published is in exactly one of pending, ready and delivered, no outcome is delivered twice, and none is for a command that was not published |
| CommandOutcomes.OutcomesAreDistinct | src/client/command.rs:3-11 | with distinct handles no two outcomes handed out, as events or as answers, are for one command |
| CommandOutcomes.EveryCommandEnds | src/client/command.rs:3-11 | whatever a run did, after a disconnect and as many polls as outcomes are then queued, every command tracked has been delivered its outcome, once, whatever the polls meet |
| CommandOutcomes.EchoAnswersAtMostOne | src/client/command.rs:350-357 | at every point of every run, while no more than a cycle of ids was minted since the latest boundary, an echo answers at most one pending command and takes that one |
| HandleArcs.RunKeepsArcs | src/client/mod.rs:438-470 | over every run the handles given out carry ids of the arcs their connections minted |
| HandleArcs.HandlesAreDistinct | src/client/mod.rs:453-470 | with a real clock or without, no handle is given twice while no connection mints more than a cycle and no two of them reach into the ids of each other |
| HandleArcs.ClocklessHandlesAreDistinct | src/client/mod.rs:453-470 | without a real clock the handles of a whole client life are distinct until a full cycle of ids was minted |
| OutcomeDelivery.AwaitNeverDials | src/client/telemetry.rs:243-299 | waiting for an outcome never dials, whatever a dial would do, because without a session nothing is pending |
| OutcomeDelivery.AwaitRepeatsDelivered | src/client/telemetry.rs:243-299 | a delivered outcome is returned again, unchanged and without effect, exactly while it is among the last 32, and refused as an invalid argument afterwards |
| OutcomeDelivery.AwaitAgainIsRefused | src/client/telemetry.rs:243-299 | a command that `await_ack` itself answered has no second outcome |
| OutcomeDelivery.AwaitSettlesIffHandleFresh | src/client/telemetry.rs:268-299 | a successful wait settles the pending command exactly when no older command under its handle is queued or remembered |
| OutcomeDelivery.TimedOutMeansUnanswered | src/client/telemetry.rs:268-299 | after a wait timed out no answer to the command is left in the buffer |
| OutcomeDelivery.ReseedCanRepeatHandle | src/client/mod.rs:453-470 | two connections seeded from one clock reading give one handle to two commands, and the wait for the second returns the first one's outcome |
| OutcomeDelivery.BufferIsDrainedFirst | src/client/telemetry.rs:219-241 | an outcome without a message is only handed out when no message is buffered |
| OutcomeDelivery.ClassifyAnswersIff | src/client/telemetry.rs:309-344 | a message resolves a pending command exactly when it carries its echo and is not a status push, with the echo's verdict, and otherwise leaves it pending |
| OutcomeDelivery.PushCarryingEcho | src/client/telemetry.rs:309-344 | a status push that also carries an echo answers the command for `await_ack` and is a report for `poll_telemetry` |
| OutcomeDelivery.BufferedEchoBeatsDeadline | src/client/telemetry.rs:219-241 | a command whose echo is buffered gets its verdict, never a timeout, whatever the clock reads in the polls that drain the buffer |
| OutcomeDelivery.DrainIsComplete | src/client/command.rs:359-373 | draining at a fixed clock ends, hands out the queued outcomes and then a timeout for each expired command in order, and leaves nothing ready and nothing expired |
| CommandAnswers.AwaitReturnsWhatIsHeard | src/client/telemetry.rs:268-299 | for a pending command that no older outcome is known for, `await_ack` returns the verdict of the first echo heard, over the buffer and then the wire, exactly when it comes before the time is up, and a timeout exactly when the time is up first, the command settled; otherwise the failure of the wire, the command still pending |
| CommandAnswers.AwaitWithoutWaiting | src/client/telemetry.rs:268-281 | without a wait: a command that never echoes is settled, the first outcome queued under the handle is returned and taken, and a handle nothing is held for is refused |
| CommandAnswers.OldestOverdueTimesOut | src/client/command.rs:359-373 | a queued outcome comes first, and else a timeout for the oldest command whose deadline is reached; none is handed out while every deadline lies ahead |
| CommandAnswers.EchoTakesOldest | src/client/command.rs:350-357 | an echo is taken by the oldest pending command with its name and id, and by no other |
| CommandAnswers.BoundaryLosesPending | src/client/command.rs:375-382 | the end of a connection gives each pending command the outcome connection lost, in the order published |
| CommandAnswers.PublishedIsPending | src/client/mod.rs:575-634 | a published command is pending last in the queue under the id returned; it is overdue from its timeout on or when a `u64` clock can count no further, and never without a real clock or a timeout; the 201st gives up on the oldest |
| CommandAnswers.FailedPublishTracksNothing | src/client/mod.rs:575-618 | a publish that fails tracks nothing and returns the failure of the dial or of the wire |
| CommandAnswers.ConnectingBegins | src/client/connect.rs:263-314 | a new connection is a boundary with an empty buffer, and a failed dial changes nothing |
| CommandAnswers.SessionsBeginApart | src/client/mod.rs:453-470 | sessions seeded less than a cycle apart begin with different ids, and without a real clock the counter goes on |
| CommandAnswers.PollPrefers | src/client/telemetry.rs:219-241 | a poll returns the oldest buffered message, else the oldest queued outcome, else a timeout for the oldest overdue command, and fails only with the failure of its dial or of the wire |
| CommandAnswers.PollReadsWireLast | src/client/telemetry.rs:219-241 | a poll reads the wire only when no message is buffered, no outcome is queued and no command is overdue, and then returns what it read |
| CommandAnswers.RawPollReturns | src/client/telemetry.rs:882-890 | a raw poll returns the oldest buffered message, or else the next one off the wire or its failure |
| PrinterClient.PrinterClient.constructor | src/client/mod.rs:219-241 | a client starts unconnected, with the counter at its floor |
| PrinterClient.PrinterClient.NextSequenceId | src/client/mod.rs:438-451 | the counter steps along the cyclic walk and the id is the new counter |
| PrinterClient.PrinterClient.ReseedSequenceCounter | src/client/mod.rs:453-470 | the counter restarts from the clock, and only with a real one |
| PrinterClient.PrinterClient.BeginConnection | src/client/connect.rs:300-314 | at a boundary the generation advances and the pending commands are lost |
| PrinterClient.PrinterClient.InstallMqtt | src/client/connect.rs:286-298 | boundary, reseed and first id, in that order, on an empty session |
| PrinterClient.PrinterClient.CloseSession | src/client/connect.rs:414-421 | the session goes, and what was buffered on it |
| PrinterClient.PrinterClient.EnsureMqtt | src/client/connect.rs:263-284 | dials exactly when there is no session, and a failure changes nothing |
| PrinterClient.PrinterClient.AttachMqtt | src/client/connect.rs:398-412 | an attached session replaces the old one, as a connection of its own |
| PrinterClient.PrinterClient.DisconnectMqtt | src/client/connect.rs:423-444 | leaves no session, and always marks a boundary |
| PrinterClient.PrinterClient.Dispatch | src/client/mod.rs:575-618 | tracks a command only once it was published, under a fresh id and with its deadline |
| PrinterClient.PrinterClient.NextUnansweredOutcome | src/client/telemetry.rs:301-307 | an outcome handed out is remembered as delivered |
| PrinterClient.PrinterClient.ClassifyMessage | src/client/telemetry.rs:309-392 | echo before report unless it is a push, an accepted start is recorded, a report updates the caches, as `ClassifyLogs` and `ClassifyAnswersIff` state of the message |
| PrinterClient.PrinterClient.PollTelemetry | src/client/telemetry.rs:219-241 | a buffered message first, then an outcome, then the wire, with the outcomes looked at again after dialling; what it returns and caches is stated by `PollPrefers`, `PolledReportIsAnswered` and `PolledStartIsHeld` |
| PrinterClient.PrinterClient.PollConnected | src/client/telemetry.rs:228-241 | on a connection: an outcome, and else the next message |
| PrinterClient.PrinterClient.CacheReport | src/client/telemetry.rs:345-392 | the frame of a report goes to the cache, and an echo in it does not |
| PrinterClient.PrinterClient.TakeMessage | src/mqtt/client/pending.rs:102-107 | the oldest buffered message, or else the next one off the wire |
| PrinterClient.PrinterClient.PollRaw | src/client/telemetry.rs:882-890 | the next message unseen, buffered ones first |
| PrinterClient.PrinterClient.PollUntil | src/client/mod.rs:513-541 | the wait over the buffer and then the wire, as conserved above |
| PrinterClient.PrinterClient.PollSession | src/client/mod.rs:519-541 | on a session, a claim from the buffer comes before the wire |
| PrinterClient.PrinterClient.WaitOnWire | src/client/mod.rs:525-541 | the loop on the wire buffers each message that is no match, evicts what no longer fits, and ends as specified |
| PrinterClient.PrinterClient.AwaitAck | src/client/telemetry.rs:268-299 | the outcome from memory, or from the wire with the command forgotten, or the failure with the command still pending, as `AwaitReturnsWhatIsHeard` and `AwaitWithoutWaiting` state |
| PrinterClient.PrinterClient.GetVersion | src/client/ams.rs:397-445 | the firmware version is cached under the connection that answered |
| PrinterClient.PrinterClient.PrimeFirmwareVersion | src/client/connect.rs:363-391 | asks for the version only when none is known on this connection, and ignores a failure |
| PrinterClient.PrinterClient.ConnectMqtt | src/client/connect.rs:354-361 | dials when needed and then makes sure the version was asked for |
| PrinterClient.PrinterClient.ConnectAll | src/client/connect.rs:837-935 | the MQTT part attempts nothing on a session there already was |
| PrinterClient.PrinterClient.WaitForHoming | src/client/motion.rs:239-281 | the loop ends as the wait specified in `HomingWait` |
| ConnectionCache.GenerationCountsBoundaries | src/client/connect.rs:300-314 | the generation is the number of boundaries, modulo 2^32 |
| ConnectionCache.CacheKeepsStamps | src/client/telemetry.rs:424-428 | each connection-scoped field holds the last value written, stamped with the connection it was written on |
| ConnectionCache.StampedReadIsExact | src/client/mod.rs:718-741 | a stamped field answers exactly when a multiple of 2^32 boundaries followed its last write, and rightly exactly when that multiple is not a positive one |
| ConnectionCache.AccessorsAreFresh | src/client/mod.rs:718-741 | over every history with fewer than 2^32 boundaries the homing flag, the settings flag and the firmware version are the last ones written since the latest boundary, or absent |
| ConnectionCache.HomeFlagStaleIff | src/client/motion.rs:57-70 | the homing flag is stale exactly after a positive multiple of 2^32 boundaries |
| ConnectionCache.FlagAnswersAgain | src/client/motion.rs:57-70 | a flag reported once is answered again 2^32 connections later |
| ConnectionCache.LastSegment | src/client/job.rs:140-143 | the part of a path after its last slash |
| TelemetryCache.TelemetryCache.BeginConnection | src/client/connect.rs:308-314 | only the generation changes, and it wraps |
| TelemetryCache.TelemetryCache.OnReport | src/client/telemetry.rs:345-422 | the settings flag is decided before `cfg` is updated, and the job identity before the state |
| TelemetryCache.TelemetryCache.UpdateJobCache | src/client/job.rs:440-470 | a new file drops the old plate, a positive plate is kept, the end of a busy job drops its start |
| TelemetryCache.TelemetryCache.UpdateStateCache | src/client/telemetry.rs:424-431 | a field overwrites its cached value only when the frame has it, and the homing flag is stamped |
| TelemetryCache.TelemetryCache.RecordJobStart | src/client/job.rs:415-438 | a start is recorded only when it names a plate and a file or URL |
| TelemetryCache.TelemetryCache.RecordFirmwareVersion | src/client/ams.rs:433-441 | the version is stamped with the connection it was fetched on |
| JobPlate.JobCacheFollowsHistory | src/client/job.rs:440-470 | the cached plate is the latest positive one since the current file was first seen, and the cached start the latest one recorded since a busy job last ended |
| JobPlate.HeldStartIs | src/client/job.rs:415-470 | the cache holds a start exactly when it was recorded, with its plate, file and connection, and neither another start nor the end of a busy job came since |
| JobPlate.StartIsOfConnection | src/client/job.rs:203-210 | a start carries the current generation exactly when a multiple of 2^32 boundaries followed it, which below 2^32 boundaries means none |
| JobPlate.RunningStartIsTrusted | src/client/job.rs:203-210 | a recorded start is trusted exactly when the cache still holds it, it carries the current generation and it names the running file |
| JobPlate.PlateAnswerComesFrom | src/client/job.rs:184-210 | over every history a plate is answered from telemetry, or else from a start that is trusted, exactly under those conditions |
| StartHistory.RunAccounts | src/client/telemetry.rs:309-344 | over every run each accepted start echo received is logged exactly once or still buffered, and those classified are logged in the order received |
| StartHistory.StepAccounts | src/client/telemetry.rs:176-299 | every call keeps that account, through claims, evictions, raw reads and lost sessions |
| StartHistory.OnlyPollingRecordsStarts | src/client/telemetry.rs:268-299 | no call but `poll_telemetry` records a start |
| StartHistory.ClassifyRecordsIff | src/client/telemetry.rs:314-332 | `poll_telemetry` records an accepted start exactly when its payload does not call itself a status push |
| StartHistory.HeldIsLatestStartIff | src/client/job.rs:415-470 | over every run, while no busy job has ended since, the cache holds the accepted start received last exactly when `poll_telemetry` took its echo and it names a job |
| StartHistory.AnswerIsLatestStartIff | src/client/job.rs:10-14 | over every run a plate answered from a start command is that of the accepted start received last, logged or still buffered, exactly when `poll_telemetry` took its echo and it names a job, and otherwise that of an older start |
| StartHistory.LatestStartOfRunIsTrustedIff | src/client/job.rs:10-14 | over every run the accepted start received last, logged or still buffered, when it describes the running job, is trusted exactly when `poll_telemetry` took its echo |
| PolledHistory.RunLogsPolls | src/client/telemetry.rs:219-241 | over every run the status frames and starts that reach the cache are those of the messages polled, in order, and since the latest boundary those polled since; each message received is buffered, polled, or taken or lost by another call, and only one of these |
| PolledHistory.PollTakes | src/client/telemetry.rs:219-241 | a poll that returns an event with a message has taken it from the front of the buffer or off the wire, and any other poll takes none |
| PolledHistory.OnlyPollingPolls | src/client/telemetry.rs:176-299 | no other call polls |
| PolledHistory.ClassifyLogs | src/client/telemetry.rs:309-392 | what a message says is what it logs: a frame when it is a push or carries no echo, a start when its echo accepts one, and nothing else |
| PolledReadings.PolledReportIsAnswered | src/client/telemetry.rs:345-431 | after a poll returned a report with a frame, every field the frame carries is the one answered, the flag for settings under its rule, a positive plate as the job's, and no start of a busy job that ended; what it does not carry stays, but for the plate of another file |
| PolledReadings.PolledStartIsHeld | src/client/telemetry.rs:328-332 | after a poll took the echo of an accepted start, the cache holds its file name, plate and connection, and is otherwise what it was |
| PolledReadings.ReadingsOfRun | src/client/motion.rs:57-70 | over every run with fewer than 2^32 boundaries the homing flag answered is the last one carried by a message polled since the latest boundary; the flag for settings is the last of those from a frame of more than 30 keys or from before the first `cfg` |
| PolledReadings.VersionOfReplyIsAnswered | src/client/ams.rs:397-445 | a version request returns only a reply under its own id, and the version in it is the one answered from then on |
| PolledReadings.AllAxesHomedIs | src/client/motion.rs:84-91 | all axes are homed when bits 0, 1 and 2 of the flag are set, and unknown without a flag |
| AwaitedStart.WaitLeavesCache | src/client/mod.rs:513-541 | a wait on a session leaves the cache as it was, whatever it claims or evicts |
| AwaitedStart.AwaitLeavesCache | src/client/telemetry.rs:268-299 | `await_ack` never changes the cache, also when it answers an accepted start |
| AwaitedStart.OlderStartStaysTrusted | src/client/telemetry.rs:268-299 | a run in which `await_ack` reports a start as accepted and the plate answered afterwards is that of an older start |
| AwaitedStart.BufferedStartIsNotAnswered | src/client/mod.rs:513-541 | a run in which the accepted start received last is still buffered and the plate answered is that of an older start |
| HomingWait.HomingSucceedsIffCycleSeen | src/client/motion.rs:239-281 | the wait succeeds exactly when a not-all-homed reading is followed by an all-homed one before a poll fails or the 90 s budget ends |
| HomingWait.HomedReadingIsFresh | src/client/motion.rs:57-91 | the readings it relies on were written since the latest boundary, and mean bits 0 to 2 of the flag |
| HomingWait.HomingEndsOtherwise | src/client/motion.rs:260-281 | a wait that does not succeed ends with the error of the first poll that fails, or with a timeout after the first poll that exceeds the budget |
| HomingWait.HomingLasts | src/client/motion.rs:260-281 | the budget is 90 seconds of a wrapping clock, or 200 polls without one |
| FtpsSlot.ConfigurationIsNeverLost | src/client/connect.rs:603-655 | over every run of ensure, connect_all, attach, disconnect and failures, the configuration supplied last is in the session or in its slot |
| FtpsSlot.RetrySucceeds | src/client/connect.rs:603-636 | however many attempts failed, a dial that is accepted gives a usable session on the configuration supplied last |
| FtpsSlot.EnsureReports | src/client/connect.rs:603-636 | connecting FTPS succeeds exactly when it leaves a usable session, on the effective configuration if it is new; a failure leaves none, keeps the configuration, and is the refusal of the dial or the lack of anything to dial with |
| FtpsSlot.ConnectAllReports | src/client/connect.rs:855-916 | `connect_all` dials FTPS exactly without a session and with a configuration, and reports success exactly when the dial was accepted |
| FtpsSlot.ConnectAllMatchesEnsureIff | src/client/connect.rs:776-916 | connecting every channel leaves the FTPS state that connecting FTPS alone leaves, exactly when the session is not poisoned |
| ConnectAll.ConnectAllMatchesConnectIff | src/client/connect.rs:354-391 | connecting every channel leaves of MQTT what connecting MQTT leaves, exactly when there was no session or its firmware version is known |
| ConnectAll.LazySessionIsNotPrimed | src/client/connect.rs:363-391 | the first session, dialled for another call, has no version known |
| FtpsSlot.PoisonedSessionIsNotRedialled | src/client/connect.rs:855-916 | after a connect and a transport failure `connect_all` leaves the poisoned session, and connecting FTPS replaces it |
| FtpsSlot.ClientSlots.WithFtps | src/client/connect.rs:513-571 | the builder puts the configuration in its slot and drops any session |
| FtpsSlot.ClientSlots.InstallFtps | src/client/connect.rs:638-655 | consumes the configuration, which is always there when it is called |
| FtpsSlot.ClientSlots.EnsureFtps | src/client/connect.rs:603-636 | keeps a usable session, redials a poisoned one, and a failed dial keeps the configuration |
| FtpsSlot.ClientSlots.ConnectAll | src/client/connect.rs:855-916 | dials on borrowed configuration and installs only on success |
| FtpsSlot.ClientSlots.DisconnectFtps | src/client/storage.rs:81-93 | the session's configuration goes back to its slot |
| FtpsSlot.ClientSlots.AttachFtps | src/client/storage.rs:46-64 | the attached session replaces any other, and its configuration is the one from then on |
| TrayMatching.PairDistance | src/ams/auto_map.rs:509-524 | there is a distance exactly when the materials are equal; `PairDistanceIs` says which |
| TrayBands.PairDistanceIs | src/ams/auto_map.rs:509-524 | the distance is in 0..1000 exactly for a spool of the wanted non-empty preset, else in 10000..11000 exactly for one of the wanted non-empty class, and in 20000..21000 for the rest; it is the colour distance with that offset |
| TrayBands.MatchedDistanceTells | src/ams/auto_map.rs:126-137 | over every run the distance of a match tells which of the three its tray is |
| TrayBands.WorseBandOnlyWhenTaken | src/ams/auto_map.rs:538-602 | a filament gets a tray of another class only when every tray of its own class and material had gone to another filament, and one that is not its preset only when every one of its preset had |
| TrayBands.TieGoesToLeastLeft | src/ams/auto_map.rs:526-536 | among unused trays at one distance a filament takes one of its class, of those one with filament left, of those the one with the least left, and of equal ones the first |
| TrayBands.ExactMatchIsShared | src/ams/auto_map.rs:562-602 | a tray closer than 0.0001 stays open to every filament, however often it was used |
| TrayMatching.ReplacesIsLess | src/ams/auto_map.rs:526-536 | the scan's mixed test, distance then remain then position, is one lexicographic order |
| TrayMatching.BestPair | src/ams/auto_map.rs:562-602 | the double scan returns exactly the lexicographic minimum of the eligible pairs by distance, class, smallest positive remain and scan position, or nothing when none is eligible |
| TrayMatching.BestIsUnique | src/ams/auto_map.rs:562-602 | that minimum is unique |
| TrayMatching.MatchGroup | src/ams/auto_map.rs:538-560 | the result is that of a finished run of rounds, each taking the best pair of the first pass and of the second only when there is none; what a run may pick is stated in `TrayBands` |
| TrayMatching.RunIsDetermined | src/ams/auto_map.rs:538-560 | the filaments, the trays and the metric determine the whole run |
| TrayMatching.GreedyIsStable | src/ams/auto_map.rs:542-602 | stability: a filament that got a tray farther than a compatible tray j lost j earlier to another filament that was at most as far from it |
| TrayMatching.PickedDistancesAscend | src/ams/auto_map.rs:542-602 | within each pass the distances picked never decrease |
| TrayMatching.ReusingIsFinal | src/ams/auto_map.rs:542-560 | once the fallback pass was needed no later round takes an unused tray |
| TrayMatching.SharedOnlyWhenNoneUnused | src/ams/auto_map.rs:542-602 | no tray beyond the reuse distance is shared while an unmapped filament has an unused compatible one |
| TrayMatching.MatchedIffCompatible | src/ams/auto_map.rs:538-560 | a filament is left unmatched exactly when no tray has its material |
| TrayDistinctness.FirstPassIsFresh | src/ams/auto_map.rs:250-259 | without presets every distance is beyond the reuse threshold, so the first pass never reopens a tray |
| TrayDistinctness.UnusedTrayMeansOwnTrays | src/ams/auto_map.rs:542-560 | while a tray of a material is unused, the filaments of that material have trays of their own |
| TrayDistinctness.DistinctTraysOfMaterial | src/ams/auto_map.rs:538-602 | for the filaments of a file the distinct trays used of each material number min(filaments, trays) |
| TrayDistinctness.DistinctTraysAreMaximal | src/ams/auto_map.rs:538-602 | no assignment of compatible trays uses more distinct trays |
| AmsDerivation.TrayOrderIsInjective | src/ams/auto_map.rs:368-386 | trays have equal scan positions exactly when they are the same feed location |
| AmsDerivation.SortedInTrayOrder | src/ams/auto_map.rs:324-325 | the candidates are put in ascending order and none is lost or repeated |
| AmsDerivation.SortIsStable | src/ams/auto_map.rs:324-325 | candidates of one order keep their relative order |
| AmsDerivation.BusCandidates | src/ams/auto_map.rs:344-390 | collects the candidates of every accepted bus unit in report order |
| AmsDerivation.BusListHolds | src/ams/auto_map.rs:344-390 | they are exactly the loaded, named trays in valid slots of the accepted bus units |
| AmsDerivation.ExtruderCandidates | src/ams/auto_map.rs:285-326 | collects what one extruder can be fed from, in tray order |
| AmsDerivation.SingleNozzleCandidates | src/ams/auto_map.rs:275-283 | collects every loaded bus tray, and no spool, in tray order |
| AmsDerivation.SideCandidatesHold | src/ams/auto_map.rs:275-326 | an extruder is offered its spool exactly when no AMS is bound to it, and otherwise exactly the trays of the units that are |
| AmsDerivation.RunSide | src/ams/auto_map.rs:191-196 | each filament of a side gets its match in a finished greedy run of that side, and the others keep theirs |
| AmsDerivation.DeriveAmsMapping | src/ams/auto_map.rs:168-237 | the matches are those of one greedy run a side, nothing for filaments on no side, and the array is the one built from them; `DerivedIsPrintable` and `DerivedArrayTells` say what both mean on the printer |
| DerivationMeaning.DerivedIsPrintable | src/ams/auto_map.rs:168-237 | a filament is matched exactly when it can print from some tray of its material, and with such a tray: with two nozzles map value 1 stands for the left extruder and 2 for the right, each with the loaded trays of the units whose `info` bits 8 to 11 name it, or are 0xE with an inlet, and its external spool when there is no such unit |
| DerivationMeaning.SideCandidateIsFed | src/ams/auto_map.rs:285-342 | the candidates of an extruder are the loaded trays of the units that feed it, a unit without `info` feeding the right one, or else spool 254 for the left and 255 for the right |
| DerivationMeaning.OtherMapValuesAreUnmatched | src/ams/auto_map.rs:196-213 | with two nozzles a filament with any other map value, or none, is left unmatched |
| DerivationMeaning.DerivedArrayTells | src/ams/auto_map.rs:215-237 | the array ends at the highest id in use, each id names the feed location that its last filament matched, and every other one is unmapped |
| DerivationMeaning.TrayOrderTells | src/ams/auto_map.rs:368-386 | trays are scanned unit by unit and slot by slot, an AMS Lite after the standard units and an AMS-HT last |
| AmsDerivation.DerivedWithinReach | src/ams/auto_map.rs:168-237 | every filament is matched within its own side, exactly when a tray of its material is in reach there, at that tray's distance |
| AmsDerivation.DerivedIsUnique | src/ams/auto_map.rs:168-237 | the plate and the telemetry determine every match |
| DerivedDistinctness.DerivedUsesMostSources | src/ams/auto_map.rs:168-237 | for the filaments of a file each side of a derived mapping uses min(filaments, trays) candidates of every material; the feed locations matched are those of the candidates used, and as many when no location is listed twice |
| AmsDerivation.CellsAreValid | src/ams/auto_map.rs:215-237 | a derived array never holds an invalid entry |
| AmsAddresses.PhysicalAgree | src/ams/mapping.rs:484-496 | the flat range test and the entry classification agree on what is physical, for every entry |
| AmsAddresses.ToEntryIsValid | src/ams/mapping.rs:76-133 | a source, in range or not, never encodes as an invalid entry |
| DerivationMeaning.EntryOfLocation | src/ams/mapping.rs:76-133 | the entry of each feed location, and the unmapped entry for one out of range |
| DerivationMeaning.FlatChannelIs | src/ams/mapping.rs:207-228 | the flat channel has unit and slot of a standard tray as quotient and remainder by 4, the id of an AMS-HT, the slot of an AMS Lite, and is -1 for all else |
| AmsMapping.HighestFilament | src/ams/mapping.rs:289-300 | an upper bound of the filament numbers that one of them reaches |
| AmsMapping.LastAllocation | src/ams/mapping.rs:300-316 | there is none exactly when no allocation names the filament |
| DerivationMeaning.LastAllocationWins | src/ams/mapping.rs:300-316 | of the allocations that name a filament the last one fills its cell |
| AmsMapping.BuildByFilament | src/ams/mapping.rs:289-316 | the array has length min(highest id, 32) and each cell holds the last allocation naming it, or the filler |
| AmsMapping.BuildBoth | src/ams/mapping.rs:253-287 | both arrays have that length and each flat cell is the channel of the structured cell |
| AmsMapping.InterlocksAgree | src/ams/mapping.rs:475-482 | the two external-spool interlocks give one verdict on the two encodings |
| DerivationMeaning.UseAmsIs | src/ams/mapping.rs:318-335 | the AMS is used on a printer with more nozzles, or when some entry is a slot of a unit |
| AmsMapping.IsPoolCompositionValid | src/ams/mapping.rs:421-473 | the bitmask and popcount loop accepts exactly the mappings with no invalid entry that meet the AMS Lite rule and whose distinct standard and HT units fit the pool |
| DerivationMeaning.PoolServes | src/ams/mapping.rs:421-473 | a pool serves a mapping exactly when its entries are known, its distinct units with ids 0 to 3 and 128 to 135 are no more than there are, and unit 16 occurs only where an AMS Lite is additive |
| AmsMapping.MaskCount | src/ams/mapping.rs:433-473 | the ones of a mask number the distinct ids put in it |
| AmsMapping.PoolVerdictIsMonotone | src/ams/mapping.rs:421-473 | reordering or repeating entries keeps the verdict, and removing entries keeps acceptance |
| RtpTimestamps.NoOverflow | src/camera/rtsps.rs:142-148 | the 128-bit intermediate never overflows, for any duration |
| RtpTimestamps.TicksAreNearest | src/camera/rtsps.rs:137-148 | the ticks are within half a tick of the exact 90 kHz value |
| RtpTimestamps.TicksKeepPace | src/camera/rtsps.rs:137-148 | ticks never go back, advance over any whole tick period, and over any stretch are off by less than one tick, so no drift accumulates |
| RtpTimestamps.CorrectIsBasePlusTicks | src/camera/rtsps.rs:142-148 | the timestamp is base plus ticks modulo 2^32 (section 5.1 of RFC 3550) |
| RtpTimestamps.WholeSeconds | src/camera/rtsps.rs:137-148 | whole seconds are 90000 ticks each, modulo 2^32 |
| RtpTimestamps.DifferencesIgnoreBase | src/camera/rtsps.rs:129-148 | timestamp differences are the tick differences modulo 2^32, across wrap-arounds and whatever the base |
| DocIndex.IndexBuilder.Register | scripts/postprocess-docs.py:254-261 | after any registrations a key maps to a target exactly when it was registered, and only ever with that target |
| DocIndex.IndexIsOrderIndependent | scripts/postprocess-docs.py:242-261 | the index does not depend on the order or the repetition of registrations |
| DocIndex.BuildItemIndex | scripts/postprocess-docs.py:242-286 | the index of a set of documents is the one of the registrations of their module-level items |
| DocIndex.RegisterEntry | scripts/postprocess-docs.py:266-285 | a module-level item of the crate is registered under its four names, and others under none |
| DocIndex.RegisteredIff | scripts/postprocess-docs.py:266-285 | a name is registered with a target exactly when an indexed item has both |
| DocIndex.PageOfItem | scripts/postprocess-docs.py:266-285 | an item is on the page of its module under its anchor, a module on a page of its own, and it is looked up by its qualified path, with `crate::`, with the crate's name, and by its bare name |
| DocIndex.SlugAt | scripts/postprocess-docs.py:238-239 | an anchor is the name with `-` for `_` and small letters for capital ones |
| DocIndex.OthersAreNotRegistered | scripts/postprocess-docs.py:266-273 | another crate's items, members of an item and the crate itself are not in the index |
| DocIndex.OwnItemsAreRegistered | scripts/postprocess-docs.py:221-235 | an item of the crate has four names, whichever of the eleven kinds it is |
| DocIndex.ItemOrderIsIrrelevant | scripts/postprocess-docs.py:242-286 | the index is the same for every order of documents and items |
| DocIndex.NameLeadsTo | scripts/postprocess-docs.py:242-286 | a name leads to its item exactly when every item of that name has the same target, and never to another item's |
| DocResolve.ResolveReference | scripts/postprocess-docs.py:289-312 | resolution ends, with the lookup of the normalised path |
| DocResolve.LookupIsLongest | scripts/postprocess-docs.py:306-312 | without overlapping separators the answer is the longest indexed prefix, or none |
| DocResolve.LookupIsLongestIff | scripts/postprocess-docs.py:306-312 | it is that for every index exactly when the path has no three colons in a row past its start |
| DocResolve.KindIsIgnored | scripts/postprocess-docs.py:297-300 | a kind before an `@` changes nothing, for any reference |
| DocResolve.IndexedPathResolves | scripts/postprocess-docs.py:289-312 | a path with a page of its own resolves to it, with or without the call parentheses and the macro mark |
| DocResolve.PrefixIsDropped | scripts/postprocess-docs.py:301-305 | `crate::`, `self::` or `super::` before an indexed path changes nothing |
| DocResolve.SelfIsEnclosing | scripts/postprocess-docs.py:299-302 | `Self` stands for the enclosing item |
| DocResolve.MemberResolvesToOwner | scripts/postprocess-docs.py:289-312 | a member without an entry resolves to its owning item |

## Left out

- Sockets, TLS and asynchronous scheduling: a call runs to completion, and a dropped future is not modelled.
- Dialling details: a dial either gives a session or fails; the connect timeout, ports and identity checks are in that choice.
- `with_timer`, `with_max_frame_size` and other builders used in the middle of a session.
- The conversion of a `u32` frame size to a narrower `usize`.
- JSON parsing: a message is a record of what its payload reads as, and the verdict of an echo is part of it.
- The table from commands to their acknowledgement, `ack_expectation`: it is an argument of a dispatch.
- Serialization failures of a request, and the connect-time `pushall` beyond the id it mints.
- `keepalive_tick`, PUBACK handling and the other internals of the MQTT client.
- PrinterClient.PrinterClient.BeginConnection: does not reset `k_profile_primed`, a flag of the calibration-profile calls.
- PrinterClient.PrinterClient.ClassifyMessage: leaves out the reply to a prompt-sound command and the caches with no stamp.
- PrinterClient.PrinterClient.GetVersion: a reply that does not parse is no match, and its serialization error is not modelled.
- TelemetryCache.TelemetryCache.OnReport: leaves out the reply settings, the lights and the caches with no stamp.
- TelemetryCache.TelemetryCache.UpdateStateCache: keeps the homing flag, the print state and `cfg` alone.
- TelemetryCache.TelemetryCache.RecordJobStart: leaves out the card path of a start.
- FtpsSlot.ClientSlots.AttachFtps: leaves out the clock reading kept beside the session.
- StartHistory.RunAccounts: a start echo that the wire never delivered is not in the history.
- Caches with no stamp and no job identity: progress, temperatures, AMS, fans, lights, cameras, and the merge of command replies into them.
- Parsing of print states, trays and the plate in a start command: these are fields of the frame.
- The path of a recorded job start, and the job's files and images.
- The 256 KiB buffer of the embedded target: the model uses the 2 MiB one.
- MessageBuffer.PendingMessages.PushPending: messages are as large as the host can receive, 1,048,574 bytes of topic and payload.
- Colour arithmetic: the colour distance and the single-precision addition of an offset are parameters, of which only the clamp to 0..1000 and the band above an offset are used.
- Folding of support-material names, and the per-unit rule that decides whether a tray is loaded.
- AmsDerivation.DeriveAmsMapping: filament ids and maps are read from a plate record; the parsing of slice info is not part of the model.
- The camera and file-tunnel slots, and the camera handshake.
- FtpsSlot.ClientSlots.ConnectAll: models the FTPS channel, and `PrinterClient.PrinterClient.ConnectAll` the MQTT one; the camera channel of the call is not modelled.
- RTSP URLs and their rewriting.
- DocResolve.ResolveReference: the leading and trailing whitespace that `strip` removes is taken as already removed.
- DocIndex.BuildItemIndex: lower-casing is over ASCII letters, and the documents are given already parsed.
- Markdown rendering passes, link rewriting, command-line tools and probes.
- Lookup tables, setters and request builders that one reading settles.
