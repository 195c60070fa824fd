# flashforge-obico, verified

The agent stands between a FlashForge printer on the LAN and an Obico server. This project models the
parts of it that decide something, and proves what they promise over every input and every run:

* **The camera relay.** A streaming multipart parser reads the printer's single-viewer camera, keeps the
  newest frame, and re-serves it to any number of clients as a multipart stream of its own.
  `Bytes`, `Mjpeg`, `MjpegTheorems`, `Reserve`, `Relay`.
* **Print sessions.** Consecutive snapshots of the printer become the print events Obico is told.
  `Snapshots`, `JobTracking`, `Sessions`, `ObicoStatus`.
* **The command protocol.** Pause, resume and cancel are sent, read back and retried against a printer that
  acknowledges commands and may ignore them; a pause ignored during warm-up is put off and sent later.
  `Agents` (the agent), `AgentHistory` and `AgentInvariant` (what every step keeps), `AgentTheorems`,
  `AgentCommands`, `AgentPending`, `AgentDeferral` and `AgentUncertainty` (what follows).
* **Three smaller pieces.** The bounded message queue (`ObicoQueue`, and `AgentDelivery` for what of the
  agent's messages gets through it), the log redaction (`Redaction`, and `Masking` for what it leaves of a
  message), and the merged file list behind starting a print (`GcodeFiles`).

Each object the program updates is a class whose methods are proved equal to a function of the state before
the call; the results are then lemmas about those functions, over all runs. `dafny verify dfyconfig.toml`
checks the whole project.

How the surroundings appear. A camera connection is the bytes it delivers before it ends. The printer and
the clock are a `World` that may answer each call in any way at all: any snapshot or a failure, an
acceptance or a refusal, any file list, any time. A run is any sequence of polls, commands taken off the
queue, requests from the console or from Obico, and print starts. Each of these is atomic with respect to the
others, although the program writes its snapshot from both threads (`src/flashforge_obico/agent.py:136` and
`:362`) under a lock that only commands take. In the relay and in the queue the steps of all threads
interleave freely; what the agent says over a run reaches the queue as from one sender. Times, progress and
weights are real numbers; how an integer is rounded to a float is open.

## What turned out not to hold as written

Where the code and its own documentation differ, the model follows the code, and a lemma says when the
documented behaviour is met.

* Text after the closing boundary line is not always ignored: it is parsed as another part when the last
  part declared no length. `EpilogueIgnoredExactly`: it is ignored, whatever it is, exactly when the last
  part declared one.
* "Every secret scrubbed" fails for a secret that can share characters with the marker, and reaches no further
  than the message of a log record: the traceback that is logged with an exception is appended after the
  filter. For the message, `ScrubbedByAnyFilterExactly`: a secret is scrubbed from every message whatever the
  other secrets are exactly when it cannot share characters with the marker. `ScrubbedExactly`: for a secret
  without angle brackets, by any one filter, exactly when it is no part of the word `redacted`.
  `MarkerCanSpellASecret` is a case with an angle bracket.
* Longest first does not hide every secret whole, even one that shares nothing with the marker: where two
  occurrences run into each other the end of one stays (`OverlapLeavesPart`). `LongestFirstHidesWhole`: it
  does unless such an occurrence reaches out of the other at one end only. `OccurrenceMarkedExactly`: an
  occurrence becomes a marker of its own exactly when, by its turn, nothing of it has been replaced and no
  earlier occurrence of the same secret runs into it.
* "When the queue is full the oldest is dropped" can drop a message although the queue has room again,
  because the sender acts on having found it full. `RoomAtDropExactly`, for any number of senders: one that
  is about to drop has room to spare exactly when the messages taken by the connection or dropped by other
  senders since it found the queue full outnumber those put since. `DropsWithRoom` is a run with a connection
  and one sender, `TwoSendersDropWithRoom` one with two senders and no connection.
* A wait without a newer frame ends a response, as the sign of a stale camera; but newer means stored at a
  later clock reading. `WakeWritesExactly`: a waking response goes on exactly when the newest frame was stored
  at another reading than the one it wrote last. `SameReadingSkipsFrame`: of two frames stored at one reading,
  a client that wrote the first skips the second, and its response ends.
* The design treats an unknown machine state as possibly printing, never as idle. The tracker and the state
  text do; the read-back and the pending pause take it for no job. `CancelLeavesSessionExactly`: after a cancel
  a session is open exactly when no read-back shows the job gone, or the one that does, after which nothing
  more is read, shows such a state; it is the session there was exactly when besides the latest reply shows no
  job on another file. `CancelledWithSessionOpen` is a run from the start in which a cancel then counts as
  done while Obico is still told `Printing`. `PollDropsExactly` includes such a state among those that give a
  pending pause up.
* The end of the job is meant to drop a deferred pause, but the pause is tied to no job, and sent to whichever
  job is found extruding. `DeferredPauseMeetsItsJobExactly`: it goes to the session it was deferred in exactly
  when every readable snapshot published from then on shows a job on that session's file.
  `DeferredPauseHitsAnotherJob` is a run from the start in which the job changes while the printer cannot be
  read.
* `parse_gcode_files` says that anything unreadable is skipped. The whole call raises for tool data that is a
  non-zero number or `true`, and for a weight, of a file or of a tool worth showing, that is an integer too
  large for a float. `MergedFiles`: exactly then. `HugeWeightRaises` is a reply with a weight of 1 followed by
  400 zeros.
* The design sends settings with the first message after every connect; the code sends them with the first
  message of the process only (`Cadence`). `SettingsReceivedExactly`: they reach Obico exactly when that message
  is taken off the queue rather than dropped; `SettingsLostForGood`: a queueful of later messages before the
  first connection is enough to lose them.
* Obico can be told `Printing` or `Paused` with no session open (`PrintingWithoutSession`).
  `TrackerAndTextAgree`: exactly while the last readable snapshot is busy without a file.

## Model

| member | source | states |
|---|---|---|
| Mjpeg.IterMjpegFrames | src/flashforge_obico/camera/mjpeg_source.py:74-103 | The generator's loop, with its boundary, hand-over flag and two body modes, yields exactly what the parser is specified to yield from the bytes left in the stream, and stops the same way. |
| Mjpeg.ReadHeadersLoop | src/flashforge_obico/camera/mjpeg_source.py:38-49 | Reading headers in place gives the part's headers, later lines overriding earlier ones, and leaves the stream right after the blank line; none at the end of the stream. |
| Mjpeg.ReadUntilBoundaryLoop | src/flashforge_obico/camera/mjpeg_source.py:57-71 | Scanning in place gathers lines up to the boundary line, consumes it, trims one line end, and gives up over the size cap. |
| MjpegTheorems.NoTornFrames | src/flashforge_obico/camera/mjpeg_source.py:38-103 | However a stream is cut short, inside a boundary line, a header or a body of either kind, the frames it yields are a prefix of those of the whole stream. |
| MjpegTheorems.FramesFit | src/flashforge_obico/camera/mjpeg_source.py:57-103 | No frame the parser ever yields exceeds the size cap, in either body mode. |
| MjpegTheorems.RoundTrip | src/flashforge_obico/camera/mjpeg_source.py:57-103 | Any list of parts, each with any headers and with or without a declared length, followed by the closing line, parses back to exactly the list of bodies, through every hand-over of the boundary line, with either line end; with bare newlines a scanned body keeps the newline before its boundary, or loses a carriage return with it. |
| MjpegTheorems.BodiesAsTheyAre | src/flashforge_obico/camera/mjpeg_source.py:68 | With full line ends what comes back is each body as it was. |
| MjpegTheorems.PaddedBoundary | src/flashforge_obico/camera/mjpeg_source.py:80-86 | A boundary line counts whatever blanks surround it, and fixes the boundary in force. |
| MjpegTheorems.UnreadableLengthRaises | src/flashforge_obico/camera/mjpeg_source.py:91-93 | A declared length of digit characters ends the parse with an error exactly when it is no number: one is a superscript, or there are more than 4300. |
| MjpegTheorems.MixedRoundTrip | src/flashforge_obico/camera/mjpeg_source.py:74-103 | With more text after the closing line: the same bodies, followed by what that text yields when the closing line was consumed as the end of the last body. |
| MjpegTheorems.ScannedExactly | src/flashforge_obico/camera/mjpeg_source.py:57-71 | A body of undeclared length comes back exactly when none of its lines reads as the boundary and it fits the cap together with its line end. |
| MjpegTheorems.EpilogueIgnoredExactly | src/flashforge_obico/camera/mjpeg_source.py:79-100 | Text after the closing line never matters exactly when the last part declared its length. |
| MjpegTheorems.HeaderRead | src/flashforge_obico/camera/mjpeg_source.py:47-49 | A header line sets the same header whatever the case of its name and the blanks around name and value. |
| MjpegTheorems.NoColonSkipped | src/flashforge_obico/camera/mjpeg_source.py:47-49 | A header line without a colon sets nothing. |
| Bytes.DecimalRoundTrip | src/flashforge_obico/camera/reserve.py:132-133 | Reading a printed length gives back the number. |
| Reserve.ServedPrefix | src/flashforge_obico/camera/reserve.py:132-133 | Parsing what a client is sent gives back the frames sent, up to the first one over the parser's cap. |
| Reserve.ServedPartSays | src/flashforge_obico/camera/reserve.py:132-133 | A served part declares exactly its type, image/jpeg, and its length. |
| Reserve.ServedRoundTrip | src/flashforge_obico/camera/reserve.py:132-133 | Parsing the concatenated parts gives back exactly the list of frames, of any content including boundary text, if and only if each is within the cap. |
| Relay.MjpegSource.Store | src/flashforge_obico/camera/mjpeg_source.py:195-199 | A store replaces the newest frame, stamps it and clears the last error. |
| Relay.MjpegSource.WaitForNewFrame | src/flashforge_obico/camera/mjpeg_source.py:188-193 | A waiting client gets the newest frame if it is strictly newer than the one it named, and nothing otherwise. |
| Relay.MjpegSource.ConsumeStream | src/flashforge_obico/camera/mjpeg_source.py:217-230 | A connection stores its parsed frames in order, all of them unless a stop ends it earlier. |
| Relay.StreamResponse.Stream | src/flashforge_obico/camera/reserve.py:118-136 | The response loop writes one part for each newer frame it wakes to and ends on the first wait that brings none. |
| Relay.RelayDelivers | src/flashforge_obico/camera/reserve.py:118-136 | In every interleaving of camera connections, stores and client loops, and wherever a client's connection is cut, what the client parses is a prefix of the frames written to it (all of them when nothing is cut), a subsequence of the frames parsed from the camera, by strictly increasing store time. |
| Relay.WakeWritesExactly | src/flashforge_obico/camera/reserve.py:125-131 | With a store clock that never runs backwards a waking response writes the newest frame, as one part, exactly when it was stored at another reading than the one it wrote last (before its first frame, when it was stored at a positive reading), and otherwise ends and writes nothing. |
| Relay.WakeWrites | src/flashforge_obico/camera/reserve.py:124-136 | In every run and with any clock a woken response appends exactly the newest frame, and its part to the bytes, when that frame is strictly newer than the one it wrote last, and otherwise ends and writes nothing; no other response is touched. |
| Relay.KeepingUpGetsAll | src/flashforge_obico/camera/reserve.py:124-136 | A client that joins and wakes after every store, at increasing readings and with anything else in between, is sent every frame stored since, in order, after at most the one that was newest when it joined, and stays open. |
| Relay.ConnectionIsSteps | src/flashforge_obico/camera/mjpeg_source.py:217-230 | As steps, a connection stores the frames `ConsumeStream` does. |
| Relay.StreamIsSteps | src/flashforge_obico/camera/reserve.py:118-136 | As steps, the response loop with the stores it waits for does what `Stream` does. |
| Relay.SameReadingSkipsFrame | src/flashforge_obico/camera/mjpeg_source.py:188-199 | A run in which two frames are stored at the same reading: a client that wrote the first never gets the second, and its response ends. |
| JobTracking.JobTracker.Observe | src/flashforge_obico/job_tracker.py:30-74 | One observation in place: the new tracker state and the events are those the tracker is specified to have. |
| JobTracking.TrackAppend | src/flashforge_obico/job_tracker.py:30-43 | Tracking is compositional: observing two batches in turn is observing their concatenation. |
| Sessions.LogIsSessionLog | src/flashforge_obico/job_tracker.py:30-74 | After any observations the event log is that of the declarative split of the readable snapshots into maximal same-file runs, each closed as done, cancelled or failed by the next readable snapshot and the run's last progress. |
| Sessions.KnownSnoc | src/flashforge_obico/job_tracker.py:31-33 | The readable snapshots are all but the missing ones and those of an unknown state. |
| Sessions.TrackerIsDeclarative | src/flashforge_obico/job_tracker.py:30-64 | After any observations a session is open exactly when the last readable snapshot shows a job (a file, and printing, heating, busy or paused); file, paused flag and last progress are that snapshot's, and the timestamp is the integer part of the time of the first snapshot of its maximal same-file run; -1 without a session. |
| Sessions.EventGrammar | src/flashforge_obico/job_tracker.py:30-74 | Every log is a sequence of sessions, each one file's job throughout and closed by a snapshot that is not: started, one pause or resume for each change, in turn, and one end: done exactly for a completed closer or a ready one at 0.995 progress or more, cancelled exactly for a cancelled one, failed otherwise. Only the last can be open, and is exactly when a file is active. |
| Sessions.StutterInvariance | src/flashforge_obico/job_tracker.py:31-33 | From any tracker state, events and state depend on the readable snapshots only. |
| Sessions.InsertUnreadable | src/flashforge_obico/job_tracker.py:31-33 | A missing or unknown snapshot inserted anywhere changes no event and no timestamp. |
| Sessions.TwoEventsAreASwap | src/flashforge_obico/job_tracker.py:34-43 | One snapshot emits two events exactly when it shows a job on another file, and they are a failure and a start; never more than two. |
| Agents.Agent.Poll | src/flashforge_obico/agent.py:83-89 | One poll in place: read, publish, report a fault, serve the pending pause. |
| Agents.Agent.ReadPrinterNow | src/flashforge_obico/agent.py:133-145 | A read refreshes the snapshot; failures below the threshold keep it and end the poll, the third in a row clears it. |
| Agents.Agent.PublishNow | src/flashforge_obico/agent.py:105-114 | A publish runs the tracker, updates the state text, and sends one message per event, or one for a change of text, the first message, or a heartbeat. |
| Agents.Agent.ExecuteCommand | src/flashforge_obico/agent.py:294-333 | Executing a command in place, from the guards through attempts and verdict to the publish. |
| Agents.Agent.AttemptCommand | src/flashforge_obico/agent.py:335-351 | The retry loop of send and read-back, and its handling of refusals. |
| Agents.Agent.ReadBackLoop | src/flashforge_obico/agent.py:353-369 | The read-back loop: the first decisive snapshot settles the outcome; failed reads are passed over. |
| Agents.Agent.ServicePendingCommand | src/flashforge_obico/agent.py:116-131 | Serving the pending intent: drop it, keep waiting, or execute it. |
| Agents.Agent.Request | src/flashforge_obico/agent.py:246-254 | The console can queue a pause or a resume and nothing else. |
| Agents.Agent.HandleServerMessage | src/flashforge_obico/agent.py:257-267 | Obico's known commands are queued in order; unknown ones are skipped. |
| Agents.Agent.StartStoredFile | src/flashforge_obico/agent.py:213-244 | One console start: the list read again, the guard, the choice of entry and the mappings; what goes out, and what the console is answered. |
| AgentInvariant.RunConsistent | src/flashforge_obico/agent.py:83-369 | Whatever the printer and clock answer, every run of polls, commands, requests and print starts keeps every log entry warranted by what came before and the state in agreement with the log. |
| AgentInvariant.PublishSound | src/flashforge_obico/agent.py:105-114 | A publish, whatever has become of the snapshot since the last one, leaves the last message telling the truth, loses no event, and changes nothing on the command side. |
| AgentInvariant.ExecuteConsistent | src/flashforge_obico/agent.py:294-369 | A command taken off the queue or off the pending intent keeps the invariant through all retries. |
| AgentTheorems.CommandSafety | src/flashforge_obico/agent.py:294-369 | In every run each command goes out while the latest snapshot read shows a job: a file, and printing, heating, busy or paused; for a pause not paused, for a resume paused; resends included. |
| AgentPending.SentExactlyWhenCalledFor | src/flashforge_obico/agent.py:305-314 | Executing a command puts it on the wire exactly when the snapshot in hand shows such a job; otherwise nothing is sent, read, posted or told. |
| AgentTheorems.PrintSafety | src/flashforge_obico/agent.py:213-244 | In every run each print goes out while the latest snapshot read is ready, completed or cancelled and fewer than three polls in a row have failed; it names a file of the list read for it and carries the mappings of the first entry of that name, or none without the material station. |
| AgentTheorems.StartSendsExactly | src/flashforge_obico/agent.py:213-244 | A start puts a print on the wire exactly when the list just read can be parsed and names the file and the machine is ready, completed or cancelled, with the mappings of the first entry of that name; otherwise it changes nothing. |
| AgentTheorems.CommandProvenance | src/flashforge_obico/agent.py:116-131 | Every command on the wire is the one being executed; polls execute only pauses, each backed by an earlier deferral warning of its own; a command from the queue answers the request of the same rank, and a cancel only ever answers Obico. |
| AgentTheorems.ToldIsTrue | src/flashforge_obico/agent.py:105-114 | Between steps the last status message carries the current state text, an empty status exactly when Offline, and the tracker's current timestamp. |
| AgentTheorems.EachMessageFits | src/flashforge_obico/obico/status.py:14-87 | Every message of a run carries the timestamp the tracker had then and the time of its publish, and describes what the printer last answered, or nothing once three polls in a row have failed: progress exactly while a session is open, the error flag exactly in the error state, the code only with it, and the file. Its status is empty exactly when no decisive snapshot (a known state, not busy without a file) has been published since the last missing one; otherwise `paused` is set exactly when the last decisive one shows a paused job, `printing` exactly when it shows a job not paused, `ready` exactly when it shows none, and the text says the same. |
| AgentTheorems.ShownIsCurrent | src/flashforge_obico/agent.py:105-114 | In every run what a publish shows the tracker is the latest snapshot read, or nothing once three polls in a row have failed or before anything was read, at the time the clock gave. |
| AgentTheorems.Cadence | src/flashforge_obico/agent.py:147-155 | Only the first message carries settings; a later message without an event changes the state text or comes at least 30 s after the one before; a non-empty status sets exactly the flag of its text. |
| AgentTheorems.PublishIsTimely | src/flashforge_obico/agent.py:109-112 | After a publish the last message is under 30 s old. |
| AgentTheorems.EventConservation | src/flashforge_obico/agent.py:105-114 | The events carried by the messages of any run are, in order, those of the print sessions the published snapshots split into. |
| AgentDelivery.ReceivedInOrder | src/flashforge_obico/obico/server.py:132-195 | Whatever the queue drops, what Obico receives over a run is a subsequence of what the agent said, and the events among it are a subsequence of those of the print sessions. |
| AgentDelivery.SettingsReceivedExactly | src/flashforge_obico/agent.py:147-155 | Obico receives settings exactly when the first status message of the run was taken off the queue and not dropped. |
| AgentDelivery.SettingsLostForGood | src/flashforge_obico/agent.py:147-155 | Once the first status message is more than a queueful behind before any connection, no message received afterwards carries settings, whatever follows. |
| AgentTheorems.TrackerAndTextAgree | src/flashforge_obico/obico/status.py:14-25 | The text is Offline exactly when no decisive snapshot has been published since the last missing one, and else what the last decisive one says. Operational means no session and timestamp -1; an open session whose text is not Offline is told Paused exactly when the tracker is paused and Printing otherwise; Printing or Paused without a session exactly while the last readable snapshot is busy without a file. |
| ObicoStatus.TextIsDeclarative | src/flashforge_obico/obico/status.py:14-25 | Over any published snapshots: the text, folded over all of them, depends on the last decisive one alone, and is Offline exactly when none followed the last missing one. |
| AgentTheorems.FaultsReportedOnce | src/flashforge_obico/agent.py:164-172 | A fault is reported while the latest snapshot read shows its code, and each code once per run. |
| AgentUncertainty.FaultIsReported | src/flashforge_obico/agent.py:164-172 | In every run a poll that reads an error code leaves it reported. |
| AgentTheorems.HandleQueuesKnown | src/flashforge_obico/agent.py:257-267 | A message from Obico queues its known commands in order behind those already queued, logs them, and changes nothing else. |
| AgentTheorems.ConsoleQueues | src/flashforge_obico/agent.py:246-254 | A pause or a resume from the console is queued behind the others; any other word changes nothing. |
| AgentPending.DrainTakesOldest | src/flashforge_obico/agent.py:274-285 | The command thread takes the oldest queued command and executes it; nothing else leaves the queue. |
| AgentCommands.CommandConfirmed | src/flashforge_obico/agent.py:314-369 | A command past the guards is sent one to three times and read back at most fifteen, each reply the printer's own; each accepted send is followed by exactly five reads or by reads up to the first that decides, a refused one by none; a third refusal, and only that, is reported. Taken exactly when a read-back shows the target state (paused; a job not paused; no job), after which nothing more is read or sent; moot exactly when none does and one shows no job; else sent three times and a deferral or failure is posted; then the latest snapshot is published. |
| AgentCommands.TryTrace | src/flashforge_obico/agent.py:335-369 | The same of any number of attempts from any point: what goes on the wire, how often, and what the outcome says about the reads. |
| AgentCommands.TryProtocol | src/flashforge_obico/agent.py:335-369 | The same of the form of the tries: attempt after attempt, each with its reads, none after one that decides, the last allowed refusal reported. |
| AgentPending.PendingMeansWarmingUp | src/flashforge_obico/agent.py:116-131 | In every run, after a poll that read the printer, only a pause is pending and only for a printer still warming up. |
| AgentPending.QuietPoll | src/flashforge_obico/agent.py:127-128 | A poll that fails or finds a job that is not paused, with no time printed and no layer, sends nothing and keeps the intent. |
| AgentPending.DeferredPauseIsSent | src/flashforge_obico/agent.py:116-131 | However many polls fail or find no time printed and no layer yet, and whatever is requested or further pauses executed meanwhile, the pause stays pending, the poll loop executes nothing, and every command sent is a pause sent while a pause from the queue is executed; the first later poll that reads an unpaused job with time printed or a layer sends it. |
| AgentPending.PollDropsExactly | src/flashforge_obico/agent.py:120-126 | A poll gives the pending pause up unsent exactly when the snapshot has no job or is paused. |
| AgentDeferral.DeferredPauseMeetsItsJobExactly | src/flashforge_obico/agent.py:116-131 | A pause deferred while a session is open is sent to the job of that very session exactly when every readable snapshot published in between, the one it is sent on included, shows a job on its file; otherwise a session has been started in between. |
| AgentDeferral.DeferredPauseHitsAnotherJob | src/flashforge_obico/agent.py:116-131 | A run from the start: a pause deferred for one file is sent to another one, started while two polls failed. |
| AgentDeferral.SnapshotIsTracked | src/flashforge_obico/agent.py:105-114 | In every run, while the snapshot the agent goes by shows a job, the open session is that job's. |
| AgentPending.DroppedPauseStaysDropped | src/flashforge_obico/agent.py:301-304 | Once a resume or cancel has been executed, whatever its outcome, no poll executes anything until another pause has been executed. |
| AgentUncertainty.OfflineExactly | src/flashforge_obico/agent.py:133-145 | From a printer that answered, and with any commands, requests and print starts between the polls: while every poll fails, the text is Offline exactly from the third failed poll on. With no command executed in between, nothing is sent to the printer and the print session stays open. |
| AgentUncertainty.CancelLeavesSessionExactly | src/flashforge_obico/agent.py:335-369 | As soon as a reply read back after a cancel shows no job, only the publish follows; a session is open afterwards exactly when no reply does, or the one that does is an unknown state; it is the session there was, file and timestamp, exactly when besides the latest reply (the snapshot held, if there is none) shows no job on another file. |
| AgentUncertainty.CancelledWithSessionOpen | src/flashforge_obico/agent.py:353-369 | A run from the start: a cancel from Obico goes out and counts as done on an unknown state; the session is still open, Obico is told Printing, and nothing was posted. |
| AgentUncertainty.PrintingWithoutSession | src/flashforge_obico/obico/status.py:23-24 | A run that tells Printing with no session behind it. |
| ObicoQueue.ObicoServer.Send | src/flashforge_obico/obico/server.py:132-143 | An undisturbed send leaves the newest 50 messages, the one sent last. |
| ObicoQueue.ObicoServer.Pump | src/flashforge_obico/obico/server.py:188-195 | The connection's loop takes the messages from the front, in order, one a turn while there are any. |
| ObicoQueue.SendIsSteps | src/flashforge_obico/obico/server.py:132-143 | The steps of one sender, undisturbed, do to the shared queue what `Send` does. |
| ObicoQueue.PumpIsSteps | src/flashforge_obico/obico/server.py:188-195 | The connection's steps, undisturbed, do to the shared queue what `Pump` does. |
| ObicoQueue.QueueConserves | src/flashforge_obico/obico/server.py:132-195 | Over every interleaving of senders and the connection the queue holds at most 50; what was taken, then what is queued, is a subsequence of what was put; every message a send was ever called with is exactly one of taken, dropped, queued, or still held by its sender. |
| ObicoQueue.BegunIsPutOrHeld | src/flashforge_obico/obico/server.py:132-143 | Over every interleaving no sender forgets or repeats its message between finding the queue full and putting it. |
| ObicoQueue.PutInOwnOrder | src/flashforge_obico/obico/server.py:132-143 | Over every interleaving each sender has put the messages it was called with, in that order, all but one it may still hold. |
| ObicoQueue.WithoutConnectionKeepsNewest | src/flashforge_obico/obico/server.py:132-143 | With nothing taken and no send under way, any number of interleaved senders leave exactly the last 50 messages, or all if fewer. |
| ObicoQueue.RoomAtDropExactly | src/flashforge_obico/obico/server.py:138-143 | For any number of senders, one that found the queue full holds its message until it drops, and drops with room to spare exactly when the messages taken by the connection or dropped by other senders meanwhile outnumber those put. |
| ObicoQueue.SoleSenderRoomExactly | src/flashforge_obico/obico/server.py:138-143 | With a single sender: exactly when the connection took a message in between. |
| ObicoQueue.DropsWithRoom | src/flashforge_obico/obico/server.py:138-143 | A run in which a sender drops with room to spare, one sender and a connection. |
| ObicoQueue.TwoSendersDropWithRoom | src/flashforge_obico/obico/server.py:138-143 | Another, two senders and nothing taken. |
| Redaction.RedactingFilter.constructor | src/flashforge_obico/logging_utils.py:12-14 | The filter holds each non-empty secret once, longest first. |
| Redaction.RedactingFilter.Redact | src/flashforge_obico/logging_utils.py:16-21 | The loop over the secrets rewrites the message as specified. |
| Redaction.ReplaceAll | src/flashforge_obico/logging_utils.py:18-19 | Substring replacement as a left-to-right loop over non-overlapping occurrences. |
| Redaction.FilterScrubs | src/flashforge_obico/logging_utils.py:16-21 | A secret that cannot share characters with the marker never shows in a filtered message, whatever the others are and whatever is replaced later. |
| Redaction.ScrubbedExactly | src/flashforge_obico/logging_utils.py:16-21 | A secret without angle brackets is scrubbed from every message by a given filter exactly when it is no part of the word in the marker. |
| Redaction.ScrubbedByAnyFilterExactly | src/flashforge_obico/logging_utils.py:12-21 | Any secret is scrubbed from every message by every filter that holds it, its secrets longest first, exactly when it cannot share characters with the marker. |
| Redaction.FilterFixpoints | src/flashforge_obico/logging_utils.py:16-21 | A message is unchanged exactly when it shows no secret, and filtering twice is filtering once. |
| Redaction.WholeSecretHidden | src/flashforge_obico/logging_utils.py:14-19 | Longest first, a message that is a secret and nothing else becomes one marker, whatever other secrets it contains. |
| Redaction.ShortestFirstLeaves | src/flashforge_obico/logging_utils.py:14-19 | With the shorter of two secrets first, a message that is the longer one, properly containing the shorter, is not hidden as one: the shorter is replaced in it and the longer found no more. Something of it stays exactly when it is not the shorter one repeated. |
| Masking.FilterIsMasking | src/flashforge_obico/logging_utils.py:16-21 | For secrets that cannot share characters with the marker, the filtered message is the original with stretches of it turned into one marker each, every stretch an occurrence of a secret there and no two overlapping, and every other character kept: replacing in the changing text is masking the unchanged one. |
| Masking.OccurrenceMarkedExactly | src/flashforge_obico/logging_utils.py:18-19 | In that mask an occurrence of a secret becomes a marker of its own exactly when, by the secret's turn, nothing of it has been replaced, and no earlier occurrence of the same secret that is replaced runs into it. |
| Masking.LongestFirstHidesWhole | src/flashforge_obico/logging_utils.py:14-19 | In that mask, longest first, an occurrence of a secret anywhere in a message is hidden to the last character unless an occurrence of a secret reaches out of it at one end only. |
| Masking.OverlapLeavesPart | src/flashforge_obico/logging_utils.py:14-19 | Two secrets of which a message shows overlapping occurrences: the end of the second stays. |
| Redaction.MarkerCanSpellASecret | src/flashforge_obico/logging_utils.py:18-19 | A secret with an angle bracket that can share characters with the marker, and that the marker of another secret puts into the log. |
| GcodeFiles.ParseGcodeFilesLoop | src/flashforge_obico/flashforge/parsing.py:46-102 | The loops over the two lists and over each file's tools build the merged list as specified, weights included, or raise what is specified. |
| GcodeFiles.MergedFiles | src/flashforge_obico/flashforge/parsing.py:25-102 | The list is the non-empty listed names, each occurrence in its place, then the detail-only names once each in first-seen order; every file has the data its first detail entry gives, in whatever forms; the call raises exactly when one of them has tool data that is a number other than zero or true, or a weight, its own or of a tool worth showing, that is an integer too large for a float; and it raises what the first such file does. |
| GcodeFiles.FileReadExactly | src/flashforge_obico/flashforge/parsing.py:11-60 | A file is read from an entry exactly when the entry gives its data: integers as integer, whole float, boolean or text, weights as number or text, flags as any value true or false, tools as the items with a material or a color. |
| GcodeFiles.HugeWeightRaises | src/flashforge_obico/flashforge/parsing.py:28-32 | A reply of one file, with a weight of 1 followed by 400 zeros and no tool data, makes the call raise an overflow. |
| GcodeFiles.FilesRoundTrip | src/flashforge_obico/flashforge/parsing.py:46-102 | Any files with distinct names, written as a reply with their detail in any of the forms a field may come in, are read back as they are, with the bare names listed or absent. |
| GcodeFiles.FilesCanBeWritten | src/flashforge_obico/flashforge/parsing.py:46-102 | All files whose tools have a material or a color can be written so. |
| GcodeFiles.DetailOfFirst | src/flashforge_obico/flashforge/parsing.py:76-83 | A name's data is that of the first entry about it. |
| GcodeFiles.StartedPrints | src/flashforge_obico/agent.py:213-244 | A print goes out exactly when the list just read names the file and the machine is ready, completed or cancelled; it names that file and maps the tools of its first entry, or none without the material station. The start raises exactly when reading the list does, for tool data or a weight. |
| GcodeFiles.MappingsAreTools | src/flashforge_obico/agent.py:233-236 | The mappings are those of the tools that have both ids, one for each, in their order. |

## Left out

- Reads that raise: a camera read that fails with an exception ends the frames like the end of the stream does; what the exception does to the reconnect loop is not modelled.
- Reconnecting and backoff of the camera and of the websocket, HTTP routing, the snapshot route, sockets, and closing the camera connection on stop.
- Waiting as such: how long `wait_for_new_frame`, the read-back pauses and the queue's `get` block. A wait ends at any moment, with whatever is then to be had.
- Thread lifecycle: no claim that a queued command is eventually executed, and no interleaving inside a poll, a command or a print start.
- The text of log lines and printer events; the temperatures, layers and print times of a status; webcam entries and the contents of the settings block.
- Reading a `detail` reply into a snapshot (`parse_snapshot`, `parse_state`): the printer is taken to answer any snapshot at all.
- How a number written as text is read, and an integer rounded to a float, are parameters of the file list.
- Tracebacks: the log redaction is that of a record's message; text the formatter appends for an exception is not filtered and not modelled.
- Camera discovery, the light, thumbnails, posting of frames, the console page and its status.
- The interpreter's limit on the digits of a number converted from text is taken at its default of 4300.
- A message taken off the queue whose websocket send then fails counts as taken.
