# Verification model of the e terminal client and its agent runtimes

The repository puts one terminal client in front of two agent runtimes, a Rust adapter for each and a
JavaScript bridge. This project models the parts whose correctness spans many steps - byte streams, logs,
bounded replay, asynchronous protocols, caches and rounding - and proves what they promise.

Code that works by changing things step by step is modelled by classes and loops proved against small
reference functions, and lemmas say what those functions compute without naming them. Protocols whose operations
suspend and interleave are state machines over uninterrupted segments: a `Step` function and lemmas about every
run of it; a class beside each makes the same steps on its own variables and is proved equal to `Step`. JSON
parsing, UTF-8 decoding, title cleaning and line wrapping are arbitrary functions passed as parameters; times are
numbers, and the environment's answers (a send that fails, a write that stops short, a child that exits) are
inputs of the step.

## What the modules cover

- `Lines`, `Framing`: the incremental decoder of LF-delimited records, equal to one look at the whole stream
  however that is cut, and the round trip of everything a sender writes.
- `HistoryPages`, `HistoryStore`: the append-only history log, read in pages at a fixed watermark while it
  grows, and written across crashes and reopens.
- `SessionIndex`: the backward block scan for a session's latest name.
- `BridgeHistory`, `Frame`, `Replay`: the incremental surface cache, the wire budget's binary search, and
  the client that recovers the whole history through both.
- `Connections`, `ConnectionRuns`, `CommandChain`, `CommandRuns`: one client socket of the bridge, its connections
  and approvals, and its commands behind promise chains.
- `SideSession`, `Auth`, `AuthRuns`, `Launcher`: the side-session worker, the authentication manager, the shared
  service.
- `LayoutCache`, `PaneWidth`, `Usage`, `ShellWord`: the display layout, width rounding, token accounting, and
  shell quoting with the reader that undoes it. `Basics` holds the vocabulary they share.

## Where a promise holds only under a condition

Each is stated with its exact condition, and where the failing run is not plain from the condition one is given.

- A log tail cut inside a character makes the whole file unreadable, the complete records before it
  included. Reading succeeds exactly when no tail was cut so (`LoadAll`, `CutCharacterHidesNeighbours`).
- A partial tail can be reopened exactly when the last writer was dropped, by an error or on shutdown. A killed
  process leaves the lock file behind, nothing removes it, and every later open is refused
  (`HistoryStore.Open`, `ReopenAfterPartialWrite`). A file with only the beginning of its header line is never
  opened again (`ReopenAfterTornHeader`).
- An accepted record is on file after the store is closed exactly when it and all queued before it were written
  whole; the first that falls short ends the writer and the rest of the queue is lost (`Drain`, `Close`).
- The grown surface cache equals filtering the whole log, after any number of looks, exactly when every surface
  event appended since the first of them is numbered above all that came before it (`GrowthIsExact`,
  `HistoryCache.SurfaceFor`, `StaleEventIsMissed`).
- A session whose log is still being loaded caches an empty surface if it is asked for history early
  (`ColdSession.SurfaceFor`, `EarlyAskerSeesNothing`).
- A requested limit is clamped as it stands only below 2^31; beyond, it wraps around (`ClampLimitMeaning`).
- A client recovers the whole history exactly when every event fits a frame alone
  (`BridgeHistoryIsRecoverable`); it never sees a gap in any case (`NeverAGap`).
- A frame over the budget by one byte whose flag was false is replaced by one with all its events, because
  `true` is a byte shorter than `false` (`ShortenedWithoutLoss`).
- At most one connection is registered throughout exactly when no hello attaches while another is registered;
  nothing refuses a second hello (`OneRegisteredExactly`, `SecondHelloRegistersTwo`). After a close nothing stays
  or becomes registered exactly when no registered connection waited to be assigned and no suspended hello attaches
  afterwards (`CloseEmpties`, `EmptyStaysEmpty`, `HelloOutlivesItsSocket`).
- A frame goes to another connection than the socket's own exactly when it is a prompt's queue frame, whose
  sender checks registration alone, and the socket was reassigned while that connection stayed registered
  (`AstrayExactly`, `HandedOverNeverAstray`, `AQueueFrameAstray`).
- An oversized control fails the pending side session whoever it belongs to, since its size is checked before
  its id (`RecordsOfOthersSettleNothing`, `RecordsSettleTheirOwn`, `OversizedControlFailsAnother`).
- A pending authentication outcome stays with its active flow exactly while no reply or cancellation of the flow
  fails to be sent and the helper does not take the outcome back; any such step makes two finishes of the flow
  possible (`OwnedStep`, `DisorderFinishesTwice`, `ADisorderlyRun`).
- A committed flow ends by its refresh answer, the refresh's timeout, a change of context or the helper's loss
  exactly as long as, besides, no refresh answer for another flow comes while it is pending (`CommittedStep`,
  `CommittedEndsOnlySo`, `UnsteadyEndsOtherwise`, `ADroppingRun`, `AnotherAnswerDropsPending`).
- A started flow is active or finished exactly once for its listener exactly when no change of session came while
  its finish was still queued: that change clears the queue (`FinishesAreConserved`, `CommittedIsFinished`,
  `ALostFinish`).
- A counted service is the one its lock names unless a foreign service answered when a lock was left behind or
  in place of the spawned child (`LauncherCoordinator.Acquire`, `ForeignServiceIsCounted`).
- The layout of no lines at width 0, wanted while the generation is 0, keeps an empty prefix
  (`TranscriptRenderCache.EnsureLayout`).
- A path with a line break is not read back from its printed form (`QuotedReadsBack`).
- A committed pane width is shown as itself exactly when some percentage shows it (`KeptExactly`).
- Usage totals stay exact exactly while no true total leaves 64 bits (`TotalsAreExact`).

## Model

| member | source | states |
|---|---|---|
| Framing.DecodeAppend | crates/e-pi/src/framing.rs:48-103 | decoding is a stream computation: after any prefix only the unfinished rest matters |
| Framing.DecodeFirst | crates/e-pi/src/framing.rs:69-101 | what the first line feed of the buffer decides: too long, blank, rejected or one record and the rest |
| Framing.JsonlDecoder.FindNewline | crates/e-pi/src/framing.rs:55-61 | the resumed search finds the first line feed of the whole buffer and looks at no byte twice |
| Framing.JsonlDecoder.Drain | crates/e-pi/src/framing.rs:54-102 | the draining loop returns what decoding the buffer at once returns, and leaves exactly its rest |
| Framing.JsonlDecoder.Push | crates/e-pi/src/framing.rs:48-103 | everything handed out so far is the decoding of everything received so far; within the limit unless failed |
| Framing.JsonlDecoder.Finish | crates/e-pi/src/framing.rs:105-111 | ending reports an unterminated record exactly when nothing failed and the stream does not end in a line feed |
| Framing.DecodeChunks | crates/e-pi/src/framing.rs:48-111 | any way of cutting a stream into chunks gives every record up to the first line at fault and then its error; without such a line every record, and an error exactly when the stream ends inside a line |
| Framing.ClosedReports | crates/e-pi/src/framing.rs:48-111 | the same of one look at the whole stream, by its lines |
| Framing.SentIsReceived | crates/e-pi/src/framing.rs:48-103 | every record sent within the limit, with LF or CR LF, is received in order |
| Framing.ReceiveSent | crates/e-pi/src/framing.rs:105-111 | a sender's stream that ends inside a further line gives the records sent and then an error, and without that line only the records |
| HistoryPages.PageIsPrefix | crates/e-dsh/src/execution_history_store.rs:387-426 | a page is a piece off the front of what the file holds, has at most its limit, and progresses when more remains |
| HistoryPages.RequestIsPrefix | crates/e-dsh/src/execution_history_store.rs:378-426 | so is a request from any offset, the step over the header at offset 0 included |
| HistoryPages.PagesAreTheWhole | crates/e-dsh/src/execution_history_store.rs:572-585 | requests of any sizes at one watermark, from offset 0 or any other, add up to the records and warnings of the visible bytes, whatever is appended between; they end |
| HistoryPages.WarningsLieAhead | crates/e-dsh/src/execution_history_store.rs:411-416 | each malformed line is warned about once, at its own offset |
| HistoryPages.WarningsAreDeserved | crates/e-dsh/src/execution_history_store.rs:411-416 | a stretch of the file is warned about exactly for its lines that are malformed or headers, at the offsets where they begin |
| HistoryPages.BodyHolds | crates/e-dsh/src/execution_history_store.rs:369-427 | what is read from an offset is the records of the lines from there, the header excepted, and fails exactly when one of them is unreadable |
| HistoryPages.ReadSnapshot | crates/e-dsh/src/execution_history_store.rs:369-427 | a page request reads the bytes below the watermark from the clamped offset |
| HistoryPages.ReadLines | crates/e-dsh/src/execution_history_store.rs:384-426 | the line loop computes the page, skipping the header only from offset 0, stopping before the record that does not fit |
| HistoryPages.Take | crates/e-dsh/src/execution_history_store.rs:401-417 | one line adds exactly its record or its warning, by its kind |
| HistoryPages.LoadPages | crates/e-dsh/src/execution_history_store.rs:634-641 | the paging loop ends and returns every record of the bytes visible at its first page, while the file grows, or fails exactly when a line is unreadable |
| HistoryPages.SortedDistinctIs | crates/e-dsh/src/execution_history_store.rs:586-587 | sorting and removing duplicates keeps each warning once, in ascending order |
| HistoryPages.Query | crates/e-dsh/src/execution_history_store.rs:566-588 | a full-session query fails exactly when a visible line is unreadable, returns the records of the visible lines in order, and warns once of each malformed line and each header out of place, by its offset, of what the last open gave, and of nothing else |
| HistoryStore.OpenedPieces | crates/e-dsh/src/execution_history_store.rs:354-365 | a reopened file is its header, complete lines and nothing unfinished, whatever was cut before |
| HistoryStore.ReadBack | crates/e-dsh/src/execution_history_store.rs:319-367 | a file with any history of appends, partial writes and reopens reads as all complete records and each tail that parses by itself |
| HistoryStore.HistoryStore.ValidateOrInitialize | crates/e-dsh/src/execution_history_store.rs:326-367 | creates the header, or checks it and separates a partial tail; a refusal leaves the file as it was, a header write that falls short leaves its beginning |
| HistoryStore.HistoryStore.Open | crates/e-dsh/src/execution_history_store.rs:186-231 | opens exactly when no lock file exists, that is when the last writer was dropped and not killed, the file is empty or its header line complete and this session's, and what has to be written gets to the file |
| HistoryStore.HistoryStore.KillInOpen | crates/e-dsh/src/execution_history_store.rs:200-231 | a process killed inside an open leaves the lock file and as much as it had written |
| HistoryStore.HistoryStore.Write | crates/e-dsh/src/execution_history_store.rs:319-324 | the bytes that get to the file complete the record or leave its beginning as the tail |
| HistoryStore.HistoryStore.Record | crates/e-dsh/src/execution_history_store.rs:91-105 | a record is queued while there is room and no error; a full queue latches one and the writer runs on; what was accepted is what was written and what is queued, in order |
| HistoryStore.HistoryStore.Append | crates/e-dsh/src/execution_history_store.rs:233-273 | the writer takes the oldest queued record; falling short keeps its bytes, latches the error and ends the writer, which drops its lock and its queue |
| HistoryStore.HistoryStore.Drain | crates/e-dsh/src/execution_history_store.rs:233-273 | draining writes everything queued, or everything before the first record that falls short and that one's beginning |
| HistoryStore.HistoryStore.Close | crates/e-dsh/src/execution_history_store.rs:169-178 | dropping a running writer writes what is queued and removes the lock file, and no other one |
| HistoryStore.HistoryStore.Kill | crates/e-dsh/src/execution_history_store.rs:200-210 | a killed process leaves its tail and its lock file, and loses its queue |
| HistoryStore.HistoryStore.SnapshotPage | crates/e-dsh/src/execution_history_store.rs:111-134 | a page at the watermark while healthy, after everything queued before it; a failed read is latched |
| HistoryStore.HistoryStore.LoadAll | crates/e-dsh/src/execution_history_store.rs:631-643 | reading all pages gives back all surviving records, everything accepted by this writer among them, exactly when the queue gets to the file and every tail is readable |
| HistoryStore.ReopenAfterPartialWrite | crates/e-dsh/src/execution_history_store.rs:200-229 | after a partial write the log is reopened, its tail diagnosed, if the writer failed, and refused at every try if it was killed |
| HistoryStore.ReopenAfterTornHeader | crates/e-dsh/src/execution_history_store.rs:339-345 | after a header write that fell short the log is reopened if and only if nothing of the header got to the file, however often it is tried |
| HistoryStore.CutCharacterHidesNeighbours | crates/e-dsh/src/execution_history_store.rs:389-391 | a run of a faithful encoder in which a tail cut inside a character hides the complete record before it |
| SessionIndex.ScanBackwards | crates/e-pi/src/session_index.rs:363-369 | scanning a block's lines from the last finds the last naming one |
| SessionIndex.BlockStep | crates/e-pi/src/session_index.rs:350-371 | one block either decides the name of the whole window or leaves nothing found in what was read |
| SessionIndex.LatestName | crates/e-pi/src/session_index.rs:340-373 | the backward scan agrees with one split of the tail window, for every file, window and block size |
| SessionIndex.TailIsNamedLast | crates/e-pi/src/session_index.rs:340-373 | that is the name on the last naming line lying wholly in the window, and none exactly when no such line names |
| BridgeHistory.GrowthIsExact | bridge/src/history.js:22-38 | growing the cached list equals filtering the whole log if and only if appended surface events are numbered above everything before |
| BridgeHistory.GrowAgain | bridge/src/history.js:30-38 | looks in between change nothing: growing again is growing once |
| BridgeHistory.LookAgain | bridge/src/history.js:31-37 | the second look appends exactly the surface events numbered above everything seen |
| BridgeHistory.HistoryCache.SurfaceFor | bridge/src/history.js:14-40 | for every interleaving of sessions, every eviction and any number of looks, the list is the surface of the append-only log if and only if the events since the first look are fresh, as those of an increasing log are; the cache keeps to its bound |
| BridgeHistory.StaleEventIsMissed | bridge/src/history.js:30-38 | a run whose second event is never shown |
| BridgeHistory.ColdSession.SurfaceFor | bridge/src/history.js:15-19 | an unloaded session's surface is right exactly when it was not asked for before its log arrived, or is empty |
| BridgeHistory.EarlyAskerSeesNothing | bridge/src/history.js:15-19 | a run in which it was |
| BridgeHistory.BeforeEntry | bridge/src/history.js:43-45 | asking before an entry's number selects exactly what precedes it |
| BridgeHistory.PageHolds | bridge/src/history.js:42-51 | a page holds the newest events below its bound, all or as many as asked for, and says whether older ones remain |
| BridgeHistory.SurfaceHolds | bridge/src/history.js:11-29 | the surface holds each surface event as often as the log, and nothing else |
| BridgeHistory.ClampLimitMeaning | bridge/src/dispatcher.js:424 | a limit below 2^31 becomes its whole part between 1 and the cap; from there the 32-bit conversion wraps |
| Frame.BestCountMeaning | bridge/src/frame.js:58-78 | the kept suffix is the longest that fits, and there is none only when not even an empty one fits |
| Frame.BoundedMeaning | bridge/src/frame.js:54-82 | what replaces a frame fits, holds its newest events, and denies older ones only if nothing was dropped |
| Frame.BoundedIsLongest | bridge/src/frame.js:58-78 | a frame that fits is sent whole; of an over-long one no longer suffix would fit than what replaces it, and an error does exactly if not even its empty frame fits |
| Frame.SearchSuffix | bridge/src/frame.js:58-77 | the binary search finds the greatest count that fits |
| Frame.EncodeBoundedFrame | bridge/src/frame.js:54-82 | the bytes sent: the frame if it fits, else the greatest number of its newest events that fits, else the error; within the budget whenever the error frame is |
| Frame.ShortenedWithoutLoss | bridge/src/frame.js:54-82 | an over-budget frame is replaced without losing an event exactly when it is one byte over and its flag is false |
| Replay.TakePage | bridge/src/history.js:42-51 | a delivered page extends what the client holds without gap or duplicate, by an event exactly when the next older one fits |
| Replay.NeverAGap | bridge/src/dispatcher.js:422-428 | whatever fits, after any number of requests the client holds a suffix of the history, complete when its flag is down |
| Replay.RecoversExactlyWhenAllFit | bridge/src/dispatcher.js:422-428 | over any lawful channel the whole history arrives, and asking stops, exactly when every event fits |
| Replay.ChannelIsLawful | bridge/src/frame.js:54-82 | the bounded frames of the bridge are such a channel |
| Replay.BridgeServes | bridge/src/history.js:42-51 | the pages of a growing log are such answers |
| Replay.BridgeHistoryIsRecoverable | bridge/src/frame.js:54-82 | the client recovers the bridge's history, over shortened frames and for every limit, if and only if each event fits one frame |
| Connections.ClientSocket.Detach | bridge/src/connection.js:14-24 | unregisters once, cleans up once, and settles exactly the pending approvals of that connection |
| Connections.ClientSocket.Continue | bridge/src/dispatcher.js:71-118 | a suspended hello, /new, new input or attach goes on by one step of the protocol, which the rows on ConnectionRuns characterise |
| Connections.ClientSocket.Dispose | bridge/src/connection.js:14-24 | detaches every connection |
| Connections.ClientSocket.Handle | bridge/src/index.js:203-302 | everything that happens to a socket is a step of the protocol |
| Connections.ReplaceKeeps | bridge/src/session.js:102-106 | swapping connections in one segment leaves one registered, owned by its operation until it is assigned |
| Connections.StepKeeps | bridge/src/dispatcher.js:313-330 | every step keeps the invariant of the socket |
| Connections.OneConnectionAtATime | bridge/src/dispatcher.js:38-118 | after one hello, in every interleaving: at most one registered connection, each cleaned up at most once and exactly when unregistered, each approval resolved at most once |
| Connections.QuietSocket | bridge/src/dispatcher.js:513-515 | with nothing suspended the registered connection is the socket's |
| Connections.OneRegisteredExactly | bridge/src/dispatcher.js:38-63 | with any number of hellos, at most one connection is registered throughout a run if and only if no hello attaches while another is registered |
| Connections.SecondHelloRegistersTwo | bridge/src/dispatcher.js:38-63 | a run in which one does |
| Connections.CloseEmpties | bridge/src/dispatcher.js:512-515 | a close leaves nothing registered exactly when, before it, no registered connection waits to be assigned |
| Connections.EmptyStaysEmpty | bridge/src/dispatcher.js:53-59 | nothing is registered again if and only if no suspended hello attaches |
| Connections.HelloOutlivesItsSocket | bridge/src/dispatcher.js:53-59 | a run in which one does after the close |
| ConnectionRuns.OperationBegins | bridge/src/dispatcher.js:412-421 | what a message begins captures the socket's connection; without one nothing begins |
| ConnectionRuns.AttachSwitches | bridge/src/dispatcher.js:313-330 | in every run an attach that found its session replaces the captured connection by a new one if that is still registered and the socket's; in every other case no connection changes |
| ConnectionRuns.RecheckGoesOn | bridge/src/dispatcher.js:85-87 | new input goes on after the models exactly if its connection is still registered and the socket's |
| ConnectionRuns.CreatesOnlyRechecked | bridge/src/dispatcher.js:85-90 | and never creates a session otherwise |
| ConnectionRuns.CreationSwaps | bridge/src/session.js:102-106 | a created session replaces the captured connection exactly if that is still registered |
| ConnectionRuns.AssignmentFollows | bridge/src/dispatcher.js:97-98 | and then becomes the socket's, whatever happens in between |
| ConnectionRuns.EndsInSwitchExactly | bridge/src/dispatcher.js:71-118 | in every run an attach, a /new or new input that is over has switched the socket if and only if it came to a step at which its session was there and the captured connection still registered and, for an attach, the socket's |
| ConnectionRuns.HelloComesTo | bridge/src/dispatcher.js:38-63 | a hello takes the session it resumes at once, or one it creates when assigned, or leaves the socket as it was |
| ConnectionRuns.OnlyOperationsAttach | bridge/src/dispatcher.js:512-515 | nothing else attaches: a close takes the socket's own connection away, a disposal all of them |
| ConnectionRuns.ApprovalsAreSettled | bridge/src/index.js:371-381 | in every run an answer settles exactly the pending approval of the socket's connection it names, an abort any not yet settled |
| CommandChain.StaleIsSilent | bridge/src/dispatcher.js:166-182 | a segment that finds its connection gone sends nothing and sets no command body going |
| CommandRuns.EachSaysItsAnswers | bridge/src/dispatcher.js:166-310 | in every run the frames of each operation whose connection stayed current are those its answers make it say |
| CommandRuns.ReloadIsAnswered | bridge/src/dispatcher.js:194-208 | in every run a finished reload over a current connection ended in its result exactly when every await ended well and unaborted, otherwise in an error |
| CommandRuns.PingIsAnswered | bridge/src/dispatcher.js:485-506 | in every run a finished ping ended in status, if the agent has one, and pong, after the model or, if that could not be read, two errors |
| CommandRuns.DirectIsAnswered | bridge/src/dispatcher.js:264-304 | in every run a finished direct command was answered by the agent's status, if any, and one result or error |
| CommandRuns.SelectionIsAnswered | bridge/src/dispatcher.js:385-410 | in every run a finished selection was answered by the model or one error |
| CommandRuns.CompactionIsAnswered | bridge/src/dispatcher.js:211-220 | in every run a finished configuration of the compaction model was answered by its result or one error |
| CommandRuns.QueryIsAnswered | bridge/src/dispatcher.js:462-469 | in every run a finished query for the model was answered by it or one error |
| CommandRuns.PromptIsAnswered | bridge/src/pending-prompts.js:19-30 | in every run a finished prompt operation published its queue once |
| CommandRuns.ListingIsAnswered | bridge/src/dispatcher.js:429-445 | in every run a finished list of sessions sent each part and then the whole, or an error in its place |
| CommandRuns.OperationArrives | bridge/src/dispatcher.js:412-510 | what arrives captures the connection and waits; only a selection is queued without one, and a ping gets its bare pong |
| CommandRuns.OperationGoesOn | bridge/src/dispatcher.js:166-182 | an operation that may run takes its answer and no other operation changes |
| CommandRuns.NothingIsStuck | bridge/src/dispatcher.js:462-510 | in every run, while an operation is unfinished, it or one that came before it may run |
| CommandRuns.EachIsOverSoon | bridge/src/dispatcher.js:166-310 | in every run an operation, stale or not, is over after five answers at the latest, a list of sessions excepted |
| CommandChain.Dispatcher.Queue | bridge/src/dispatcher.js:166-182 | a command waits for the tail it found and becomes the tail |
| CommandChain.Dispatcher.Advance | bridge/src/dispatcher.js:264-310 | an operation runs to its next await and sends the frames of that segment |
| CommandChain.Dispatcher.Handle | bridge/src/dispatcher.js:412-510 | everything that happens to the chain is a step of the protocol |
| CommandRuns.MovingKeepsChain | bridge/src/pending-prompts.js:19-30 | beginning, going on and finishing keep every lane linked in arrival order |
| CommandRuns.OneAtATimeInOrder | bridge/src/dispatcher.js:462-510 | in every run operations of a lane run one at a time in arrival order, direct commands after the model operations before them, and a null tail means none is unfinished |
| CommandRuns.OnlyTheCurrentIsTold | bridge/src/connection.js:6-8 | in every run each frame leaves for a connection registered at that moment, and all but the queue frames of prompts for the socket's own |
| CommandRuns.AstrayExactly | bridge/src/index.js:114 | in every run a frame leaves for another connection than the socket's own if and only if it is a queue frame and the socket was reassigned while its connection stayed registered |
| CommandRuns.HandedOverNeverAstray | bridge/src/pending-prompts.js:8-30 | none does when the socket is only ever reassigned after its connection was unregistered |
| CommandRuns.AQueueFrameAstray | bridge/src/pending-prompts.js:19-30 | a run in which one does |
| CommandRuns.NothingAfterDetach | bridge/src/dispatcher.js:385-446 | in every run nothing is sent for a connection after its detach |
| CommandRuns.FramesLeaveInOrder | bridge/src/dispatcher.js:166-182 | in every run frames of a lane leave in the order their operations arrived |
| SideSession.SideSessionControl.Begin | crates/e-pi/src/side.rs:69-105 | starts an operation under a new id, or says why not and changes nothing |
| SideSession.SideSessionControl.Record | crates/e-pi/src/side.rs:139-223 | what a record settles, in the order the checks are made |
| SideSession.SessionWorker.Hear | crates/e-pi/src/session_worker.rs:438-456 | a settled record starts the copy or publishes the one result |
| SideSession.SessionWorker.PrepareSide | crates/e-pi/src/session_worker.rs:508-518 | a creation withdrawn in time is dropped; any other is accepted and begun or answered |
| SideSession.SessionWorker.Turn | crates/e-pi/src/session_worker.rs:427-546 | every arm of the loop is a step of the protocol |
| SideSession.StepKeeps | crates/e-pi/src/session_worker.rs:427-546 | every arm keeps: one state at a time, every accepted creation accounted for, ids growing |
| SideSession.EachAcceptedIsAnsweredOnce | crates/e-pi/src/session_worker.rs:438-542 | in every run the worker is idle, pending or copying, and each accepted creation has one result, except the one still held |
| SideSession.IdsAreNeverReissued | crates/e-pi/src/side.rs:81-85 | ids strictly increase and the pending operation has the newest |
| SideSession.RecordsOfOthersSettleNothing | crates/e-pi/src/side.rs:145-180 | a record of another operation changes nothing exactly when the source is unchanged and it is no oversized control |
| SideSession.RecordsSettleTheirOwn | crates/e-pi/src/side.rs:139-223 | in every run a record that takes a waiting creation to its result or its copy bears the id issued for that creation, unless it is an oversized control or the source changed |
| SideSession.OnlyItsOwnControlsMoveTheDeadline | crates/e-pi/src/side.rs:196-204 | selecting suspends the deadline, each sign of progress renews it in full, and no other record touches it |
| SideSession.OversizedControlFailsAnother | crates/e-pi/src/side.rs:171-176 | an oversized control of an earlier operation fails the pending one |
| SideSession.ARunWithAnEarlierOperation | crates/e-pi/src/side.rs:171-176 | a run that reaches such a state |
| SideSession.CopiesWhatItsOwnControlNames | crates/e-pi/src/session_worker.rs:438-448 | copying starts only from the pending operation's own ready control, with its seed and its directory |
| SideSession.BeginsOrRefuses | crates/e-pi/src/side.rs:69-105 | an operation begins under the next id with a whole timeout, exactly when none is pending, there is a session and an id is left |
| SideSession.PreparingAnswers | crates/e-pi/src/session_worker.rs:508-518 | in every run a creation is passed over, refused for the first reason there is, or begun |
| SideSession.OwnControlAnswers | crates/e-pi/src/side.rs:181-223 | in every run the pending operation's own control keeps it waiting, cancels or fails it by its outcome, or starts the copy of exactly the session it names, if it names one |
| SideSession.OtherRecordsAnswer | crates/e-pi/src/side.rs:145-188 | in every run any other record ends the wait only by a failed command, an oversized or malformed control or a move to another session, with that result |
| SideSession.ChangedSourceAnswers | crates/e-pi/src/side.rs:145-152 | a session that had changed before fails the wait whatever the record |
| SideSession.OthersAnswerNothing | crates/e-pi/src/session_worker.rs:427-546 | no other event answers anything, but a cancellation that names the waiting creation and a due deadline |
| SideSession.CancellingAnswers | crates/e-pi/src/session_worker.rs:525-532 | a waiting creation can always be cancelled, with one result |
| SideSession.TimeAndCopyAnswer | crates/e-pi/src/session_worker.rs:499-545 | the deadline and the end of the copy answer what is held |
| Auth.AuthManager.Configure | crates/e-pi/src/auth.rs:193-262 | a changed context ends the active flow through the queue and asks the last query again; invalid and unchanged contexts do nothing |
| Auth.AuthManager.Get | crates/e-pi/src/auth.rs:266-291 | a request for providers replaces the one waiting, or fails at once |
| Auth.AuthManager.Start | crates/e-pi/src/auth.rs:292-327 | refuses while a flow is active; otherwise starts a new id, failing it at once if it cannot be sent |
| Auth.AuthManager.Reply | crates/e-pi/src/auth.rs:328-353 | an unsendable reply of the active flow ends it as unknown |
| Auth.AuthManager.Cancel | crates/e-pi/src/auth.rs:369-383 | an unsendable cancellation ends the active flow as unknown |
| Auth.AuthManager.Recv | crates/e-pi/src/auth.rs:388-441 | queued actions first, then a passed deadline, the helper's record or its loss |
| Auth.AuthManager.Record | crates/e-pi/src/auth.rs:533-622 | what each helper record does to the active flow |
| Auth.AuthManager.Control | crates/e-pi/src/auth.rs:443-492 | the refresh answer finishes the pending flow it names, and drops a pending outcome it does not name |
| Auth.AuthManager.ExpireDeadlines | crates/e-pi/src/auth.rs:494-525 | a due request for providers is answered by an error, a due refresh fails the pending flow |
| AuthRuns.OwnedStep | crates/e-pi/src/auth.rs:264-622 | a step keeps a pending outcome with its active flow and a deadline if and only if it is orderly |
| AuthRuns.EachFlowFinishesOnce | crates/e-pi/src/auth.rs:264-622 | in every orderly run each flow is finished at most once, only after it started |
| AuthRuns.DisorderFinishesTwice | crates/e-pi/src/auth.rs:345-379 | after any orderly run, a disorderly step and the refresh timeout finish the flow twice |
| AuthRuns.ADisorderlyRun | crates/e-pi/src/auth.rs:369-380 | a run that reaches such a step |
| AuthRuns.EveryFinishHasItsCause | crates/e-pi/src/auth.rs:264-622 | in every run, orderly or not, each finish returned or queued has the outcome of an event that ended its flow |
| AuthRuns.EveryEndIsFinished | crates/e-pi/src/auth.rs:264-622 | and each event that ends a flow finishes it with that outcome |
| AuthRuns.SucceedsOnlySo | crates/e-pi/src/auth.rs:586-616 | a flow is said to have succeeded only after the helper's uncommitted success or a successful refresh |
| AuthRuns.EachActionHasItsCause | crates/e-pi/src/auth.rs:264-622 | in every run an event returns exactly the actions it is a reason for, or the oldest queued one |
| AuthRuns.StartAnswers | crates/e-pi/src/auth.rs:292-327 | starting returns the start, with its failure when it could not be sent, or the refusal while a flow is active |
| AuthRuns.ConfigurationIsChecked | crates/e-pi/src/auth.rs:193-216 | a configuration is refused for the first of its checks that fails and then changes nothing |
| AuthRuns.CatalogFollows | crates/e-pi/src/auth.rs:193-291 | in every run what is asked and waited for follows requests, reconfigurations, answers and deadlines |
| AuthRuns.HelperComesAndGoes | crates/e-pi/src/auth.rs:264-441 | in every run the helper is there until it is lost or a message cannot be sent, and comes back only with a configuration |
| AuthRuns.CommittedStep | crates/e-pi/src/auth.rs:264-525 | in an orderly step a committed flow goes on waiting or is finished by one of its four causes, unless a refresh answer for another flow comes |
| AuthRuns.CommittedEndsOnlySo | crates/e-pi/src/auth.rs:388-525 | in every steady run a committed flow still waits, or was concluded by its refresh, its timeout, a context change or the helper's loss, and whatever finish of it was returned or queued has that cause's outcome |
| AuthRuns.CommittedIsFinished | crates/e-pi/src/auth.rs:193-262 | a committed flow that no longer waits has exactly one finish, returned or queued, if and only if the session did not change while it was queued |
| AuthRuns.FinishesAreConserved | crates/e-pi/src/auth.rs:193-262 | in every orderly run a started flow is active or has exactly one finish, returned or queued, if and only if the session did not change while its finish was queued |
| AuthRuns.ALostFinish | crates/e-pi/src/auth.rs:223-224 | a run in which it did and the finish is lost |
| AuthRuns.UnsteadyEndsOtherwise | crates/e-pi/src/auth.rs:345-379 | a step that is not steady makes the flow end by something else |
| AuthRuns.ADroppingRun | crates/e-pi/src/auth.rs:454-460 | a run in which another flow's answer comes and a cancellation then ends the flow |
| AuthRuns.CatalogWaitsWithDeadline | crates/e-pi/src/auth.rs:264-291 | in every run a request for providers waits exactly as long as its deadline stands, and asks what was last asked |
| AuthRuns.OthersChangeNothing | crates/e-pi/src/auth.rs:558-589 | prompts, notices and outcomes of other flows change nothing |
| AuthRuns.AnotherAnswerDropsPending | crates/e-pi/src/auth.rs:454-460 | an answer for another flow drops the pending outcome; then neither timeout nor the right answer finishes the flow |
| Launcher.WaitForService | crates/e-dsh/src/launcher.rs:471-492 | the first poll that decides gives the answer - ready, the child exited, or the time is up - and the wait ends within its timeout plus one poll |
| Launcher.LauncherCoordinator.Acquire | crates/e-dsh/src/launcher.rs:494-567 | joins a lock while anything answers, leaves a foreign service uncounted when there is no lock, or spawns and counts from one; a failed acquire terminates its child and tells its exit from a timeout; says exactly when what is counted is foreign |
| Launcher.LauncherCoordinator.Release | crates/e-dsh/src/launcher.rs:569-597 | the count follows the attached sessions; nothing is terminated while another is attached; the last removes the lock if termination is accepted, dead or not, and leaves it at zero if not |
| Launcher.RejoinAfterFailedStop | crates/e-dsh/src/launcher.rs:500-510 | a zero-count lock is rejoined, and the next last release asks the same process to stop |
| Launcher.ForeignServiceIsCounted | crates/e-dsh/src/launcher.rs:500-510 | a run in which a foreign service is counted under the lock of a dead process |
| LayoutCache.PrefixesCut | crates/e-tui/src/cache.rs:140-147 | prefix sums of a cut are a cut of the prefix sums |
| LayoutCache.PrefixesAreSums | crates/e-tui/src/cache.rs:177-186 | without saturation they are sums, strictly increasing |
| LayoutCache.PrefixesSaturate | crates/e-tui/src/cache.rs:177-186 | each is the sum of the rows before it, or the greatest number |
| LayoutCache.PartitionPoint | crates/e-tui/src/cache.rs:49 | the binary search splits the ordered prefix at the row |
| LayoutCache.Locate | crates/e-tui/src/cache.rs:44-52 | the line and offset a row falls in, clamped past the end |
| LayoutCache.LocatedOnce | crates/e-tui/src/cache.rs:44-52 | no other line and offset holds that row |
| LayoutCache.TranscriptRenderCache.StructuralRebuilt | crates/e-tui/src/cache.rs:113-117 | forgets the layout and starts a new generation |
| LayoutCache.PushRows | crates/e-tui/src/cache.rs:142-147 | pushing the tail's counts and running totals gives the prefix sums of all rows |
| LayoutCache.TranscriptRenderCache.StructuralTailUpdated | crates/e-tui/src/cache.rs:122-149 | a patched layout is exact for the new lines, a stale one is forgotten |
| LayoutCache.TranscriptRenderCache.EnsureLayout | crates/e-tui/src/cache.rs:163-187 | row counts equal a full recomputation, and so do prefix sums but for one stated corner |
| LayoutCache.DrawAfter | crates/e-tui/src/cache.rs:113-187 | so after every run of reported edits and drawings |
| PaneWidth.WidthComesBack | crates/e-tui/src/config.rs:217-237 | up to 10000 columns a width of at least a quarter survives conversion and back |
| PaneWidth.PercentComesBack | crates/e-tui/src/config.rs:217-237 | beyond that every percentage does |
| PaneWidth.NoDrift | crates/e-tui/src/config.rs:217-237 | committing a shown width changes nothing, for every percentage and width |
| PaneWidth.KeptExactly | crates/e-tui/src/config.rs:217-237 | a committed width is shown as itself exactly when some percentage shows it |
| PaneWidth.ProductsFit | crates/e-tui/src/config.rs:217-237 | no intermediate product leaves 32 bits |
| PaneWidth.Clamped | crates/e-tui/src/config.rs:217-237 | no columns give the least percentage and a width beyond all of them the greatest |
| Usage.RunEndsSnoc | crates/e-tui/src/app.rs:242-250 | a sample replaces the end of its run or starts one |
| Usage.TotalsAreExact | crates/e-tui/src/app.rs:236-272 | totals equal the last samples of the runs, at every moment, if and only if no true total overflows |
| Usage.NeverUnderflows | crates/e-tui/src/app.rs:248-268 | subtracting the sample replaced never stops at zero, whatever overflowed before |
| Usage.SessionModel.RecordUsage | crates/e-tui/src/app.rs:236-272 | records a sample unless absent or empty, keeping all totals those of the samples recorded |
| Usage.SessionTotals | crates/e-tui/src/app.rs:236-272 | the four totals of a session are the true ones when none ever overflowed |
| Usage.HitRateMeaning | crates/e-tui/src/app.rs:202-215 | the hit rate is at most 100 always, and the nearest percentage when nothing saturates |
| ShellWord.Header.SkipSpace | crates/e-tui/src/command_script.rs:67-80 | skips blanks and continued line ends |
| ShellWord.SkipsAllSpace | crates/e-tui/src/command_script.rs:67-80 | what is skipped is blanks and continued line ends, and all of them |
| ShellWord.Header.ReadWord | crates/e-tui/src/command_script.rs:86-133 | the loop reads the word at the front, or none, and leaves what follows |
| ShellWord.DoubleQuotedReadsBack | crates/e-tui/src/command_script.rs:109-121 | text with a backslash before what double quotes leave special is read back from between them as one quoted word that does not expand |
| ShellWord.DoubleExpands | crates/e-tui/src/command_script.rs:122-127 | other text between double quotes is read as it stands and expands exactly for a `$` or a backquote |
| ShellWord.BackslashedReadsBack | crates/e-tui/src/command_script.rs:109-121 | text with a backslash before each character is read back as one quoted word that does not expand |
| ShellWord.BareReadsBack | crates/e-tui/src/command_script.rs:122-127 | bare text is read as it stands and expands exactly for a substitution or a pattern character |
| ShellWord.ContinuedLine | crates/e-tui/src/command_script.rs:110-118 | a continued line end within a word is no part of it |
| ShellWord.UnclosedQuote | crates/e-tui/src/command_script.rs:128-132 | a quote that is not closed is no word |
| ShellWord.NotAWord | crates/e-tui/src/command_script.rs:97-102 | nor is nothing, a backslash at the end, or `$` before a quote |
| ShellWord.EscapedReads | crates/e-tui/src/command_script.rs:86-133 | inside single quotes the escaped path is read back, up to a line break that may not be quoted |
| ShellWord.QuotedReadsBack | crates/e-pi/src/main.rs:131-136 | the printed path is read as one quoted, non-expanding word of that value if and only if no line break forbids it |
| ShellWord.ReadCommand | crates/e-pi/src/main.rs:136 | the printed command is read as its three words under the same condition |

## Left out

- Framing.SentIsReceived: requires that a record sent with a bare LF does not end in CR, which a JSON text never does.
- HistoryStore.HistoryStore.Open: the identity and version check of the header is the parameter `accepts`; the workspace registry is not part of this model, and only a write that falls short fails, not a seek or a flush.
- HistoryStore.HistoryStore.SnapshotPage: a sync of the file that fails is not an input; the code treats it as a failed read. The store has one caller at a time, as its owner's lock ensures.
- HistoryPages.Query: the ranking of calls and the single page of other queries are not modelled; the order of warnings is a parameter.
- Replay.BridgeHistoryIsRecoverable: requires that a frame without events fits the budget; frames are not lost in transit.
- Connections.OneConnectionAtATime: requires at most one hello, which the code does not enforce; `OneRegisteredExactly` holds without it.
- CommandRuns.OnlyTheCurrentIsTold: covers the chained operations, direct commands and session lists; the queue frames sent when the agent's inbox changes by itself, queued input, skills, questions and login frames are not modelled. The chain's own promises never reject, as its handlers see to.
- CommandRuns.OneAtATimeInOrder: a promise that waits may begin at any moment after the one before it finished, so the order of microtasks is not fixed.
- Connections.ClientSocket.Handle: does not send the error frames of hello, /new and attach, which change no state of the socket.
- SideSession.EachAcceptedIsAnsweredOnce: a creation withdrawn before it is taken from the queue is not accepted and gets no result, as in the code; "pie-side-n" is the number n, and paths are absolute as on POSIX systems.
- SideSession.CopiesWhatItsOwnControlNames: the copying of the staged file itself and its cleanup are not modelled; its result is an input.
- AuthRuns.EachFlowFinishesOnce: requires fewer operations than 64-bit ids, beyond which ids repeat.
- Auth.AuthManager.Configure: opening an authentication URL, and the contents of prompts, notices and provider lists, are not modelled.
- Launcher.LauncherCoordinator.Acquire: acquire and release are atomic, fewer than 2^32 sessions are attached, and a service with counted sessions ends only by being terminated; crashed clients and real races on the lock file are not modelled.
- LayoutCache.DrawAfter: `usize` is 64 bits wide; the work statistics are not modelled.
- ShellWord.QuotedReadsBack: the Windows form of the quoting is not modelled, nor are scripts read from standard input.
- The connections and the dispatcher are objects shared by closures; the model keeps them as numbered values, so aliasing between sockets is not captured.
- Sockets, child processes, channels and timers as libraries; JSON, TOML and YAML; rendering, themes, key input and setup: easy next to the above, or not logic of the repository.
