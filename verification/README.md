# Kinesis video producer with media server: verified model

This project models six components of the repository and proves what they promise over every input and
every run. Each component has a value-level model (a state, its steps and runs of any length) and, where
the program works by changing fields or arrays in place, a class or method in that form whose contract ties
each step to the value-level one. The playback channel and the method queue keep a ghost history of their
steps: `Valid()` says that the history is a possible run and that the fields are where it leads, every method
keeps `Valid()` and ensures what the theorems about runs conclude.

- **Playback channel of the media server** (`Playback*.dfy`). Main, Recv and Send threads and the camera's
  signal callback share one record. A step runs one thread to the next cut; Send is cut at its three blocking
  calls (condition wait, codec query, frame fetch) and at the head of its loop. Any other step may happen in
  between, wake-ups may be spurious, frames may fail to arrive, clients may come and go. `PlaybackFields.dfy`
  says for each field exactly which steps write it; `PlaybackWindow.dfy` and `PlaybackPackets.dfy` say what
  follows over runs.
- **Callback chains** (`CallbackChains.dfy`, `ChainLayout.dfy`, `CallbacksProvider.dfy`,
  `PlatformCallbacks.dfy`). Four bounded chains in one allocation, guarded registration, one dispatch
  discipline behind 26 client slots, teardown, and the platform structure.
- **Method queue and its workers** (`MethodQueue*.dfy`). A monitor with any number of producers and consumers.
- **Rotating logger** (`RotatingLogger.dfy`, `JournalLogger.dfy`).
- **Frame pacing** (`FramePacing.dfy`).
- **Connection-stale state machine** (`ConnectionStale.dfy`).

`Wrappers.dfy`, `Statuses.dfy` and `Integers.dfy` hold what several components share.

## Where a promise fails

- Window agreement: Send, outside its wait, should have the shared window or a reload due. It holds throughout
  a run exactly when no CONFIG is missed: one that is accepted, differs from the window in force, and arrives
  with no RESET since Send's last reload test and Send's last step not into its wait (`AgreementExactly`). For
  a client that sends RESET before each CONFIG this comes down to events alone: no CONFIG with a new window
  arrives right after a wake-up of Send (`DisciplinedExactly`). Such a client is safe if Send is never woken
  while suspended (`DisciplinedWindow`), and not otherwise (`ConfigAtLoopHeadIsLost`). A missed CONFIG does harm
  only if a call of Send begins or goes on with it (`MissedConfigRecovered`): this never happens exactly when
  Send is never overtaken, by CONFIG and START before a pass or by CONFIG during a call
  (`CallsCurrentExactly`); with such a client only a pass can be (`DisciplinedCalls`).
- A signal of the camera that arrives while a codec query is under way is lost exactly if that query is
  answered with the codec stored: the flag is cleared, Send fetches with no question asked after the signal
  (`FetchWithoutQuestion`), and the new codec is neither stored nor announced until the next signal
  (`CodecSettles` gives the exact condition, `SignalLost` a run, `NeverAsked` the consequence). Answered with yet
  another codec, two RESTARTs can be sent (`TwoRestarts`).
- A RESTART announcing a new codec is sent only if the client can be told when the answer arrives
  (`CodecSettles`); the new codec is stored either way, so an unsent RESTART is never made up for
  (`RestartLost`).
- The duplicate guard works within a chain only. Nothing is freed twice exactly when no two requests accepted
  for different chains, nor one of them and the platform structure, share free function and data
  (`TeardownOnceExactly`, `SharedPairFreedTwice`).
- A platform slot that an earlier call supplied and the last one did not keeps its aggregate over a NULL
  function (`PlatformHistory` says exactly when, `AggregateOverNull` shows it), and a replaced platform
  structure is never freed (`OnlyLastPlatformFreed`).
- Removal of old log files always uses the name `journal_`; a logger under any other name never removes
  anything (`OtherNamesNeverRemoved`). A file can grow by one check period per restart (`SizesBounded`,
  `SizesReached`) and does so without end (`RestartsDefeatTheCheck`): over all runs there is a bound exactly for a journal that rotates at every
  call (`BoundedAcrossRestartsExactly`).
- Asking the workers to stop does not wake a sleeping one. It sleeps on exactly as long as no event wakes it
  (`SleepsOnExactly`), and it can miss the stop in two ways: asleep when the stop comes, or past the test of its
  flag and not yet in the lock (`StopCanBeMissed`, `StoppedWorkerSleepsOn`). A worker past its test may also get
  one more item (`DeliveredPastTest`), but no more than that (`DeliveriesAfterStopWorkers`).
- The 30 s gap between stale callbacks acted on is kept exactly while the quiet time fits the 64-bit clock
  (`GapExactly`).
- `backToNormalTime` is described as the time after which recovery is verified; the code sets it and never
  reads it, and the machine never returns to its normal state by itself. The model follows the code.

## Model

| member | source | states |
|---|---|---|
| PlaybackFields.Initially | MediaStreamProvider_cpp/FmspServer.c:344-358 | the channel starts without client, suspended, with window (0, 0), nothing due and nothing logged |
| PlaybackFields.ClientStep | MediaStreamProvider_cpp/FmspServer.c:580-728 | the client is the one accepted last; a failed accept, giving up a silent client, and a STOP that interrupts a transmission leave none; nothing else changes it |
| PlaybackFields.SuspendStep | MediaStreamProvider_cpp/FmspServer.c:673-827 | RESET and STOP leave Send suspended and START leaves it not suspended; Send suspends itself exactly when a pass or wake-up finds no client, or when a frame within the open window reaches a non-negative arrival time |
| PlaybackFields.RenewStep | MediaStreamProvider_cpp/FmspServer.c:675-777 | a reload is asked for by RESET and done at a wake-up or a pass that does not wait |
| PlaybackFields.WindowStep | MediaStreamProvider_cpp/FmspServer.c:680-690 | the shared window is written by CONFIG alone, and only while Send is suspended |
| PlaybackFields.LocalWindowStep | MediaStreamProvider_cpp/FmspServer.c:769-774 | Send's own window is written by a reload alone, with the shared one |
| PlaybackFields.StartedStep | MediaStreamProvider_cpp/FmspServer.c:769-812 | the window is opened by a video frame at or after the target and shut by a reload |
| PlaybackFields.CodecStep | MediaStreamProvider_cpp/FmspServer.c:785-806 | the codec stored is the one answered last, where anything but H265 counts as H264; the change flag is set by the signal and cleared by an answer equal to the codec stored |
| PlaybackFields.PcStep | MediaStreamProvider_cpp/FmspServer.c:760-827 | Send waits after a pass that finds it suspended, and goes into a call exactly when it has a client and is not suspended, a codec query first if the flag is set |
| PlaybackFields.LogStep | MediaStreamProvider_cpp/FmspServer.c:673-827 | which commands take effect, and which packets go to which client, at each step |
| PlaybackWindow.AgreementExactly | MediaStreamProvider_cpp/FmspServer.c:673-780 | in every run from the start Send, when not waiting, has the shared window or has a reload due, if and only if no CONFIG is missed: accepted, with another window than the one in force, no RESET since Send's last reload test, Send's last step not into its wait |
| PlaybackWindow.StepAgreement | MediaStreamProvider_cpp/FmspServer.c:673-827 | the same for one step of any thread: agreement is kept exactly by the steps that are not a stale CONFIG |
| PlaybackWindow.FlagsFromHistory | MediaStreamProvider_cpp/FmspServer.c:675-780 | after every run Send is in its wait exactly when its last step was a pass that found it suspended, and outside the wait a reload is due exactly when a RESET arrived after the last reload test |
| PlaybackWindow.AfterResetAlways | MediaStreamProvider_cpp/FmspServer.c:675-780 | with a RESET behind and no START or STOP since, Send is suspended, and it is outside its wait with no reload due exactly when, of RESETs and Send's steps, the last was a wake-up |
| PlaybackWindow.LastConfigInForce | MediaStreamProvider_cpp/FmspServer.c:673-728 | with a RESET before each CONFIG every CONFIG is accepted: the shared window is that of the last one sent |
| PlaybackWindow.DisciplinedExactly | MediaStreamProvider_cpp/FmspServer.c:673-780 | with a RESET before each CONFIG agreement holds throughout if and only if no CONFIG with a new window arrives when, of RESETs and Send's steps, the last was a wake-up |
| PlaybackWindow.DisciplinedWindow | MediaStreamProvider_cpp/FmspServer.c:673-780 | every run with a RESET before each CONFIG in which Send is never woken while suspended keeps agreement |
| PlaybackWindow.ConfigAtLoopHeadIsLost | MediaStreamProvider_cpp/FmspServer.c:760-780 | a disciplined run with a spurious wake-up in which Send fetches with the old window |
| PlaybackWindow.MissedConfigRecovered | MediaStreamProvider_cpp/FmspServer.c:760-780 | a run in which a CONFIG is missed at the loop head and the later fetch has the shared window all the same |
| PlaybackWindow.CallsCurrentExactly | MediaStreamProvider_cpp/FmspServer.c:673-780 | in every run no codec query or fetch is ever under way with an outdated window and no reload due, if and only if Send is never overtaken: without RESET since its last reload test, no pass goes into a call when the window in force is not the one Send last took over, and no CONFIG with another window is accepted during a call; a pass that finds no client does not take over |
| PlaybackWindow.DisciplinedCalls | MediaStreamProvider_cpp/FmspServer.c:673-780 | with a RESET before each CONFIG the same holds if and only if no pass is overtaken |
| PlaybackWindow.OutdatedFrameHadReset | MediaStreamProvider_cpp/FmspServer.c:675-827 | in a run in which Send is never overtaken a frame is judged by an outdated window only if RESET arrived while the pass that fetched it was under way |
| PlaybackWindow.ReloadTakesSharedWindow | MediaStreamProvider_cpp/FmspServer.c:762-780 | a reload that goes on to a fetch loads the shared window and does so with a client and not suspended |
| PlaybackWindow.FirstIn | MediaStreamProvider_cpp/FmspServer.c:810-812 | the first video frame at or after the target time |
| PlaybackWindow.FirstOut | MediaStreamProvider_cpp/FmspServer.c:816-819 | the first frame from there on with 0 <= arrival <= time; every frame before it has a time below the arrival, or the arrival is negative |
| PlaybackWindow.SelectedIsRun | MediaStreamProvider_cpp/FmspServer.c:810-827 | what a window selects are the frames from FirstIn through FirstOut one by one, a packet is marked FINISH exactly if 0 <= arrival <= its time, and only the last can be |
| PlaybackWindow.WindowSelection | MediaStreamProvider_cpp/FmspServer.c:769-827 | from any reload, through failed fetches, codec changes and rejected commands, only packets to the client are logged, and without RESTARTs they are exactly the contiguous run of fetched frames from FirstIn through FirstOut, the last marked FINISH; fetching ends with that frame; a packet is marked exactly if 0 <= arrival <= its time, which only the last is |
| PlaybackPackets.PacketsOnlyAfterStart | MediaStreamProvider_cpp/FmspServer.c:675-827 | every packet of every run lies after an accepted START with no RESET, STOP or media FINISH in between |
| PlaybackPackets.StartNeeded | MediaStreamProvider_cpp/FmspServer.c:675-827 | from any state in which Send is suspended, every later packet lies after a START accepted from then on, with no end in between |
| PlaybackPackets.StartNeededAfterNoClient | MediaStreamProvider_cpp/FmspServer.c:776-780 | once Send has come by without a client, the START of an earlier client counts no more: every later packet has a START of its own after that step |
| PlaybackPackets.OneFinishPerStart | MediaStreamProvider_cpp/FmspServer.c:814-826 | between two media FINISH packets there is an accepted START |
| PlaybackPackets.SilentWithoutClient | MediaStreamProvider_cpp/FmspServer.c:642-827 | without a client, until the next is accepted, no command takes effect and no packet is sent |
| PlaybackPackets.OnlyToClient | MediaStreamProvider_cpp/FmspServer.c:785-827 | from one accept to the next every packet goes to the client there was |
| PlaybackPackets.AskedBeforeFetch | MediaStreamProvider_cpp/FmspServer.c:785-808 | after the camera's signal no fetch begins before some codec query is answered, be it one asked before the signal |
| PlaybackPackets.FetchWithoutQuestion | MediaStreamProvider_cpp/FmspServer.c:785-808 | after the camera's signal, with no question asked since, a fetch begins if and only if a query was under way at the signal and is answered with the codec stored |
| PlaybackPackets.RestartsStep | MediaStreamProvider_cpp/FmspServer.c:785-803 | a step puts a RESTART on the wire exactly when a codec reply differs from the stored codec and the client can be told |
| PlaybackPackets.CodecSettles | MediaStreamProvider_cpp/FmspServer.c:785-808 | after a signal with the camera at one codec c from then on, where a query under way at the signal may be answered with any codec a: at most three queries, two if none was under way, one if the first answer is the codec stored; the RESTARTs are those for answers that differ from the codec stored with a client that can be told then; every fetch begun later starts with the flag clear and c stored, if and only if not (a query was under way and its answer is the codec stored and that is not c) |
| PlaybackPackets.QueryAt | MediaStreamProvider_cpp/FmspServer.c:785-792 | the position of the q-th codec reply of a run |
| PlaybackPackets.NeverAsked | MediaStreamProvider_cpp/FmspServer.c:785-808 | with the flag clear and no query under way nothing is asked, stored or announced in any continuation without a signal |
| PlaybackPackets.SignalLost | MediaStreamProvider_cpp/FmspServer.c:785-806 | a run in which the camera signals during a query that is answered with the codec stored: in every continuation without a further signal the codec is not asked for again, nor changed, nor announced |
| PlaybackPackets.TwoRestarts | MediaStreamProvider_cpp/FmspServer.c:785-806 | a run in which the query under way is answered with a codec that the camera has left again: two RESTARTs and the codec as before |
| PlaybackPackets.RestartLost | MediaStreamProvider_cpp/FmspServer.c:785-806 | a run in which the client leaves during the query: the new codec is stored, and in every continuation with that codec no RESTART is ever sent |
| PlaybackServer.Channel.constructor | MediaStreamProvider_cpp/FmspServer.c:344-358 | the channel starts suspended, without client, with window (0, 0) and no reload due, and with an empty history |
| PlaybackServer.Channel.AtAnyTime | MediaStreamProvider_cpp/FmspServer.c:673-827 | between any two steps of the fields: every packet sent lies between START and an end, and the wait and the reload flag are what the history says; while suspended, every later packet needs a START from now on |
| PlaybackServer.Channel.ReceiveCommand | MediaStreamProvider_cpp/FmspServer.c:673-728 | one command of the Recv loop is the command step; keeps the history a possible run that leads to the fields, and every packet sent between START and an end |
| PlaybackServer.Channel.DropClient | MediaStreamProvider_cpp/FmspServer.c:642-671 | after giving up a silent client, nothing is accepted or sent in any continuation until the next client; keeps the history a possible run that leads to the fields, and every packet sent between START and an end |
| PlaybackServer.Channel.AcceptClient | MediaStreamProvider_cpp/FmspServer.c:580-602 | a connection request replaces the client, or leaves none when accepting fails; keeps the history a possible run that leads to the fields, and every packet sent between START and an end; until the next accept every packet goes to this client |
| PlaybackServer.Channel.CameraSignal | MediaStreamProvider_cpp/FmspServer.c:542-547 | after the camera callback, in any continuation without a codec reply Send is in a fetch only if it is the one under way now, and in any continuation without a new question a fetch begins if and only if a query is under way now and is answered with the codec stored; keeps the history a possible run that leads to the fields, and every packet sent between START and an end |
| PlaybackServer.Channel.SendPass | MediaStreamProvider_cpp/FmspServer.c:760-780 | Send from its loop head to the next cut is the pass step; keeps the history a possible run that leads to the fields, and every packet sent between START and an end; after a step without a client Send is suspended, and in every continuation each packet has a START of its own |
| PlaybackServer.Channel.SendWake | MediaStreamProvider_cpp/FmspServer.c:764-780 | Send from its wake-up to the next cut is the wake step; keeps the history a possible run that leads to the fields, and every packet sent between START and an end; after a step without a client Send is suspended, and in every continuation each packet has a START of its own |
| PlaybackServer.Channel.ToNextCall | MediaStreamProvider_cpp/FmspServer.c:769-785 | reload, client test and choice of the next call; without a client Send is left suspended at its loop head |
| PlaybackServer.Channel.SendPacket | MediaStreamProvider_cpp/FmspServer.c:797-803 | puts a packet on the wire exactly if there is a client and Send is not suspended |
| PlaybackServer.Channel.CompareCodec | MediaStreamProvider_cpp/FmspServer.c:785-806 | an unknown codec counts as H264; a new one is stored, announced and sends Send back to its loop head, the same one clears the flag |
| PlaybackServer.Channel.SendFrame | MediaStreamProvider_cpp/FmspServer.c:810-826 | the first video frame in the window opens it; once open every frame is sent, and the one that reaches the arrival time is marked and suspends Send: exactly if 0 <= arrival <= its time |
| PlaybackServer.Channel.SendCodecReply | MediaStreamProvider_cpp/FmspServer.c:785-806 | Send from the codec reply to the next cut is the codec step; keeps the history a possible run that leads to the fields, and every packet sent between START and an end |
| PlaybackServer.Channel.SendFrameReply | MediaStreamProvider_cpp/FmspServer.c:808-827 | Send from the fetch to its loop head is the frame step; keeps the history a possible run that leads to the fields, and every packet sent between START and an end |
| ChainLayout.ChainsEndToEnd | src/source/CallbacksProvider.c:303-323 | for all sizes and chain counts the chains lie end to end and the last ends where the allocation ends |
| ChainLayout.EntriesDisjoint | src/source/CallbacksProvider.c:319-323 | two different entries share no byte |
| ChainLayout.EntriesTile | src/source/CallbacksProvider.c:303-323 | a byte lies behind the header within the allocation if and only if it lies in some entry |
| CallbackChains.SlotTable | src/source/CallbacksProvider.c:515-746 | the 3 producer, 12 stream, 5 auth and 6 api slots, each in one chain |
| CallbackChains.AddKeepsWellFormed | src/source/CallbacksProvider.c:515-746 | any request keeps: slot installed iff supplied by its chain, counts within the limit, no chain frees a pair twice |
| CallbackChains.EveryHistoryWellFormed | src/source/CallbacksProvider.c:515-746 | the same in every state reachable by any history of requests, accepted or rejected |
| CallbackChains.InstalledByChain | src/source/CallbacksProvider.c:515-746 | after any history, slot by slot: a producer, stream, auth or api slot points at its aggregate exactly if an entry of the producer, stream, auth or api chain supplies it |
| CallbackChains.RequestTouchesOneChain | src/source/CallbacksProvider.c:515-746 | a request appends its entry to the chain it names exactly when accepted, and leaves the others as they were |
| CallbackChains.AcceptedExactly | src/source/CallbacksProvider.c:519-536 | a request is accepted exactly with a structure of version 0, room in the chain, and no entry there with the same data and the same non-NULL free function |
| CallbackChains.RejectedBecause | src/source/CallbacksProvider.c:519-536 | each status code names the first test failed, in the order NULL, version, room, duplicate, and the chain |
| CallbackChains.ChainHoldsItsRequests | src/source/CallbacksProvider.c:515-746 | after any history each chain holds exactly the entries accepted for it, in order |
| CallbackChains.EligibleMeaning | src/source/CallbacksProvider.c:759-760 | the eligible positions are exactly those with a non-NULL slot, ascending |
| CallbackChains.DispatchUnique | src/source/CallbacksProvider.c:751-1410 | the description of a dispatch determines the calls and the status |
| CallbackChains.DispatchFinished | src/source/CallbacksProvider.c:759-773 | when every eligible callback succeeds all are called and the aggregate succeeds |
| CallbackChains.DispatchStopped | src/source/CallbacksProvider.c:764-767 | the first callback that does not succeed ends the chain; STOP yields success, another failure is returned |
| CallbackChains.AppendAddsAtMostOneCall | src/source/CallbacksProvider.c:751-1410 | one more entry never changes earlier calls and adds one exactly when it supplies the slot and all earlier calls succeeded |
| CallbackChains.FreesMembers | src/source/CallbacksProvider.c:376-398 | the pairs freed are exactly those of entries with a free function |
| CallbackChains.FreesInOrder | src/source/CallbacksProvider.c:376-398 | the k-th free call is that of the k-th entry that has a free function |
| CallbackChains.ChainFreedOnce | src/source/CallbacksProvider.c:376-398 | within a guarded chain every such pair is freed exactly once |
| CallbackChains.RegisteredIn | src/source/CallbacksProvider.c:376-398 | after any history teardown makes a free call for a chain if and only if some request accepted for that chain had that function and data |
| CallbackChains.TeardownOnceExactly | src/source/CallbacksProvider.c:371-398 | after any history nothing is freed twice if and only if no two requests accepted for different chains, nor one of them and the platform structure, share free function and data |
| CallbackChains.SharedPairFreedTwice | src/source/CallbacksProvider.c:530-536 | a pair registered with two chains is accepted by both and freed twice |
| CallbacksProvider.CellsLikeBytes | src/source/CallbacksProvider.c:319-323 | the regions of the flat storage lie in the order and at the offsets of the byte layout |
| CallbacksProvider.WriteAppends | src/source/CallbacksProvider.c:538-539 | one write to the flat storage appends to one chain and leaves the other three unchanged |
| CallbacksProvider.HasDuplicate | src/source/CallbacksProvider.c:530-536 | the guard loop finds a duplicate if and only if there is one |
| CallbacksProvider.RunRegion | src/source/CallbacksProvider.c:751-774 | the aggregate loop makes exactly the calls of a dispatch and returns its status |
| CallbacksProvider.FreeRegion | src/source/CallbacksProvider.c:376-380 | the free loop calls the free functions of a chain in index order, one call for each entry that has one |
| CallbacksProvider.Provider.constructor | src/source/CallbacksProvider.c:307-326 | a new provider stands for four empty chains with default platform callbacks |
| CallbacksProvider.Provider.Append | src/source/CallbacksProvider.c:538-539 | the struct copy and count increment refine appending to one sequence |
| CallbacksProvider.Provider.AddCallbacks | src/source/CallbacksProvider.c:515-746 | registration on the flat storage has the status and effect of Add on the four sequences |
| CallbacksProvider.Provider.Aggregate | src/source/CallbacksProvider.c:751-1410 | each of the 26 aggregates is a dispatch along its chain: slot by slot the producer, stream, auth or api chain |
| CallbacksProvider.Provider.SetPlatformCallbacks | src/source/CallbacksProvider.c:441-513 | replacing the platform structure has the status and effect of Set |
| CallbacksProvider.Provider.FreeChain | src/source/CallbacksProvider.c:376-398 | the free calls of one chain, in index order |
| CallbacksProvider.OnlyLastPlatformFreed | src/source/CallbacksProvider.c:371-374 | after any history of platform settings only the structure accepted last is freed |
| CallbacksProvider.Handle.Create | src/source/CallbacksProvider.c:300-349 | chain counts of 20 and more are refused and leave no provider |
| CallbacksProvider.Handle.AddCallbacks | src/source/CallbacksProvider.c:515-558 | a NULL provider is refused, otherwise as Add |
| CallbacksProvider.Handle.Aggregate | src/source/CallbacksProvider.c:751-774 | NULL custom data is refused without a call, otherwise a dispatch along the chain that the slot belongs to |
| CallbacksProvider.TeardownOrder | src/source/CallbacksProvider.c:371-398 | the calls of teardown fall into the platform's and those of the four chains in this order |
| CallbacksProvider.Handle.FreeProvider | src/source/CallbacksProvider.c:357-410 | teardown makes the platform's call and then those of the producer, stream, auth and api chains in this order, each in registration order, clears the pointer, and does nothing on a cleared one |
| PlatformCallbacks.HistoryDescribes | src/source/CallbacksProvider.c:441-513 | after any history a slot is aggregated iff some accepted call supplied it, and the structure in force is the one accepted last |
| PlatformCallbacks.PlatformHistory | src/source/CallbacksProvider.c:1415-1521 | a platform slot stays callable if and only if it was never supplied or the last accepted call supplied it |
| PlatformCallbacks.AggregateOverNull | src/source/CallbacksProvider.c:441-513 | a slot supplied by one call and left out by the next is left with its aggregate over a NULL function |
| PlatformCallbacks.LogPrintHistory | src/source/CallbacksProvider.c:441-513 | after any history the print function in force is the last one that an accepted call supplied |
| PlatformCallbacks.SetAcceptedExactly | src/source/CallbacksProvider.c:441-513 | a platform structure is accepted exactly at version 0 |
| MethodQueue.QueueStep | MediaStreamProvider_cpp/common/MethodQueue.cpp:24-73 | what each step takes from the queue and puts into it, and what is recorded of it: an item at the back, the front one out, everything out once stopped |
| MethodQueue.ThreadStep | MediaStreamProvider_cpp/common/ServiceBase.cpp:4-19 | each thread goes through the worker's loop: test, lock, sleep or item, handling, test; and no step of another thread moves it except the notification that picks it, and the broadcast |
| MethodQueue.AlwaysOnePlace | MediaStreamProvider_cpp/common/ServiceBase.cpp:4-19 | in every run each thread is at one place of that loop |
| MethodQueue.HandledStep | MediaStreamProvider_cpp/common/ServiceBase.cpp:12-15 | an item counts as handled when its worker's handling ends |
| MethodQueue.NoLostWakeup | MediaStreamProvider_cpp/common/MethodQueue.cpp:24-73 | in every reachable state with a sleeper the queue is no longer than the set of threads woken and yet to recheck; after the broadcast nobody sleeps |
| MethodQueue.WakeupsStep | MediaStreamProvider_cpp/common/MethodQueue.cpp:24-73 | every step of a producer, consumer or the destructor, and every spurious wake-up, keeps that |
| MethodQueue.SleeperNeverMissesItem | MediaStreamProvider_cpp/common/MethodQueue.cpp:48-60 | an item never waits with every consumer asleep |
| MethodQueue.SleepEndsExactly | MediaStreamProvider_cpp/common/MethodQueue.cpp:48-60 | a sleeper leaves its sleep at a step if and only if the step is the notification that picks it, the broadcast, or a spurious wake-up of it; it never exits from its sleep |
| MethodQueue.SleepsOnExactly | MediaStreamProvider_cpp/common/ServiceBase.cpp:33-41 | through a whole run a sleeper sleeps on if and only if no event wakes it, and then does not exit |
| MethodQueue.StopCanBeMissed | MediaStreamProvider_cpp/common/ServiceBase.cpp:10-12 | the two ways for a worker to be asleep after the stop are possible: asleep on the empty queue before it, or past its test before it and in the lock after it |
| MethodQueue.StoppedWorkerSleepsOn | MediaStreamProvider_cpp/common/ServiceBase.cpp:33-41 | a worker that missed the stop in one of these ways never exits in any continuation that does not wake it |
| MethodQueue.DeliveriesAfterStopWorkers | MediaStreamProvider_cpp/common/ServiceBase.cpp:4-19 | once the workers have been asked to stop, in every continuation no further one comes to enter Dequeue and at most one more item is delivered for each that was inside it or past its test |
| MethodQueue.DeliveredPastTest | MediaStreamProvider_cpp/common/ServiceBase.cpp:10-12 | a run in which a worker past its test gets an item after the stop, with nobody in Dequeue when the stop came |
| MethodQueue.DeliveredInOrder | MediaStreamProvider_cpp/common/MethodQueue.cpp:48-73 | in every interleaving delivered followed by queued is enqueued until the stop, and delivered is always a prefix of enqueued |
| MethodQueue.NothingDeliveredAfterStop | MediaStreamProvider_cpp/common/MethodQueue.cpp:24-73 | nothing is delivered after the stop |
| MethodQueue.NoSleepAfterBroadcast | MediaStreamProvider_cpp/common/MethodQueue.cpp:24-60 | after the broadcast nobody falls asleep in any continuation |
| MethodQueue.EveryItemHandledOnce | MediaStreamProvider_cpp/common/ServiceBase.cpp:4-19 | with any number of workers each delivered item is either in one worker's hands or has been handled exactly once |
| MethodQueue.SingleWorkerInOrder | MediaStreamProvider_cpp/common/ServiceBase.cpp:10-16 | with one worker the items handled are a prefix of those enqueued, in order, at most one behind those delivered |
| MethodQueueMonitor.Queue.constructor | MediaStreamProvider_cpp/common/MethodQueue.cpp:22-22 | an empty queue without waiters and with an empty history |
| MethodQueueMonitor.Queue.AtAnyTime | MediaStreamProvider_cpp/common/MethodQueue.cpp:24-73 | between any two steps of the fields: wake-ups are covered, delivery is in order, each delivered item is held by one worker or handled once |
| MethodQueueMonitor.Queue.Enqueue | MediaStreamProvider_cpp/common/MethodQueue.cpp:48-53 | the critical section of Enqueue is the enqueue step; keeps the history a possible run that leads to the fields, and with it covered wake-ups, order and each item handled once |
| MethodQueueMonitor.Queue.SpuriousWake | MediaStreamProvider_cpp/common/MethodQueue.cpp:58-60 | a spurious wake-up is the spurious step; keeps the history a possible run that leads to the fields, and with it covered wake-ups, order and each item handled once |
| MethodQueueMonitor.Queue.TestStop | MediaStreamProvider_cpp/common/ServiceBase.cpp:10-10 | the worker's test of its stop flag, without the lock: it exits or goes on to Dequeue; keeps the history a possible run that leads to the fields, and with it covered wake-ups, order and each item handled once |
| MethodQueueMonitor.Queue.DequeueEnter | MediaStreamProvider_cpp/common/MethodQueue.cpp:55-73 | Dequeue from the lock to its wait or return is the enter step, and returns what it delivers; keeps the history a possible run that leads to the fields, and with it covered wake-ups, order and each item handled once |
| MethodQueueMonitor.Queue.DequeueRecheck | MediaStreamProvider_cpp/common/MethodQueue.cpp:58-73 | Dequeue from a wake-up is the recheck step; keeps the history a possible run that leads to the fields, and with it covered wake-ups, order and each item handled once |
| MethodQueueMonitor.Queue.DequeueRest | MediaStreamProvider_cpp/common/MethodQueue.cpp:62-73 | after the wait: nothing from an empty queue, discard everything after the stop, otherwise the front item |
| MethodQueueMonitor.Queue.FinishHandling | MediaStreamProvider_cpp/common/ServiceBase.cpp:12-15 | the item in the worker's hands had not been handled before, is handled now and is in nobody's hands any more; keeps the history a possible run that leads to the fields, and with it covered wake-ups, order and each item handled once |
| MethodQueueMonitor.Queue.DestructSetStop | MediaStreamProvider_cpp/common/MethodQueue.cpp:25-28 | after the destructor's critical section nothing is delivered in any continuation; keeps the history a possible run that leads to the fields, and with it covered wake-ups, order and each item handled once |
| MethodQueueMonitor.Queue.DestructNotifyAll | MediaStreamProvider_cpp/common/MethodQueue.cpp:29-29 | after the broadcast nobody sleeps, now or in any continuation; keeps the history a possible run that leads to the fields, and with it covered wake-ups, order and each item handled once |
| MethodQueueMonitor.Queue.DestructClear | MediaStreamProvider_cpp/common/MethodQueue.cpp:30-30 | what has not been delivered when the destructor clears the queue is not delivered in any continuation; keeps the history a possible run that leads to the fields, and with it covered wake-ups, order and each item handled once |
| MethodQueueMonitor.Queue.StopService | MediaStreamProvider_cpp/common/ServiceBase.cpp:33-34 | in any continuation at most one more item is delivered for each worker that is inside Dequeue or past its test now; keeps the history a possible run that leads to the fields, and with it covered wake-ups, order and each item handled once |
| RotatingLogger.IndexReadBack | MediaStreamProvider_cpp/common/Logger.cpp:66-91 | a first line of one digit, zero included, is the index; anything else and an absent file count as 1 and are overwritten |
| RotatingLogger.IndexRoundTrip | MediaStreamProvider_cpp/common/Logger.cpp:75-88 | an index written on rotation is read back unchanged, and the file is left as it was |
| RotatingLogger.FirstStartIsInit | MediaStreamProvider_cpp/common/Logger.cpp:66-91 | initialisation in an empty directory gives index 1 |
| RotatingLogger.RotateTidy | MediaStreamProvider_cpp/common/Logger.cpp:18-34 | rotation keeps the last three files a suffix, drops the rest, and starts an empty file |
| RotatingLogger.RotateKeeps | MediaStreamProvider_cpp/common/Logger.cpp:18-34 | rotation leaves the file just left and the one before it unchanged |
| RotatingLogger.StepTidy | MediaStreamProvider_cpp/common/Logger.cpp:103-133 | one log call or restart keeps the directory tidy |
| RotatingLogger.AlwaysTidy | MediaStreamProvider_cpp/common/Logger.cpp:66-133 | from an empty directory, across any logging and clean restarts, the files index-2, index-1, index concatenated are a suffix of everything logged, no other log file exists, and the index file names the index |
| RotatingLogger.RetainedExactly | MediaStreamProvider_cpp/common/Logger.cpp:66-133 | in every run with restarts the last file holds exactly what was logged from the last rotation on, the last two from the second last, the last three from the third last |
| RotatingLogger.NothingLostYet | MediaStreamProvider_cpp/common/Logger.cpp:66-133 | with fewer than three rotations so far the files hold everything logged |
| RotatingLogger.LogRetains | MediaStreamProvider_cpp/common/Logger.cpp:103-133 | a call loses nothing unless it rotates, and then the oldest of the three files |
| RotatingLogger.IndexGoesRound | MediaStreamProvider_cpp/common/Logger.cpp:114-118 | after n rotations the index is n % 9 + 1 |
| RotatingLogger.MovesOnExactly | MediaStreamProvider_cpp/common/Logger.cpp:109-114 | a call rotates exactly when more calls than the frequency came since the last look and the file written last is larger than the limit, an absent one counting as -1 |
| RotatingLogger.OtherNamesNeverRemoved | MediaStreamProvider_cpp/common/Logger.cpp:18-34 | under any name but journal_ nothing written is ever removed, in any run |
| RotatingLogger.SizesBounded | MediaStreamProvider_cpp/common/Logger.cpp:103-133 | with r restarts every file stays within max(limit, 0) plus (r + 1) * P times the longest message, where P is f + 2 for a check frequency f >= 0 and 1 for a negative one; the three files kept stay within three times that |
| RotatingLogger.SizesReached | MediaStreamProvider_cpp/common/Logger.cpp:103-133 | for every check frequency, message length L and number of restarts some run fills a file to exactly that bound, with the limit at (P - 1) * L |
| RotatingLogger.RestartsDefeatTheCheck | MediaStreamProvider_cpp/common/Logger.cpp:103-123 | unless every call rotates, processes that log one message each fill one file to n * length for every n |
| RotatingLogger.OneMessagePerFile | MediaStreamProvider_cpp/common/Logger.cpp:103-133 | with a negative check frequency and a limit below -1 no file of the journal outgrows one message, whatever the restarts |
| RotatingLogger.OtherNamesGrow | MediaStreamProvider_cpp/common/Logger.cpp:18-34 | with those settings and any other name a file grows with every ninth call |
| RotatingLogger.BoundedAcrossRestartsExactly | MediaStreamProvider_cpp/common/Logger.cpp:103-133 | some size is never exceeded over all runs with any restarts if and only if the name is journal_, the check frequency is negative and the limit is below -1 |
| JournalLogger.Logger.constructor | MediaStreamProvider_cpp/common/Logger.h:21-25 | a new logger on an existing directory, initialised, is the restart step |
| JournalLogger.Logger.Init | MediaStreamProvider_cpp/common/Logger.cpp:66-91 | reads the index back or starts the index file afresh |
| JournalLogger.Logger.RemoveLogFile | MediaStreamProvider_cpp/common/Logger.cpp:18-34 | removes the given file, or all numbered files but it and the two before it |
| JournalLogger.Logger.NextFile | MediaStreamProvider_cpp/common/Logger.cpp:114-123 | the steps of a rotation in the program's order; in a tidy directory the new file is empty and the two before it are unchanged |
| JournalLogger.Logger.Log | MediaStreamProvider_cpp/common/Logger.cpp:103-133 | one log call is the log step; it keeps the directory of a journal tidy, and the three files hold what they held, less the oldest if the call rotated, and the text |
| FramePacing.VideoSleepMeaning | samples/KvsAudioVideoStreamingSampleNew.c:270-275 | a loop that is late does not sleep; otherwise nine tenths of what remains, rounded down |
| FramePacing.VideoTurnBody | samples/KvsAudioVideoStreamingSampleNew.c:237-275 | one turn puts frame n and leaves frame n + 1 ready with its time, file and key flag |
| FramePacing.PutVideoFrames | samples/KvsAudioVideoStreamingSampleNew.c:210-276 | frame n has time n*d, file n mod 403 and the key flag of that file, and is put at the start of turn n; no sleep after a late turn; under a clock that never goes back and sleeps that last, none is put more than ceil(d/9) early |
| FramePacing.LeadBounded | samples/KvsAudioVideoStreamingSampleNew.c:234-276 | that bound for every frame of every feasible run |
| FramePacing.LeadReached | samples/KvsAudioVideoStreamingSampleNew.c:270-275 | for every frame duration some feasible run reaches the bound |
| FramePacing.KeyFrameGap | samples/KvsAudioVideoStreamingSampleNew.c:264-265 | from a key frame the next is 43 frames on at the end of the files and 45 otherwise, with none between |
| FramePacing.KeyFrameInAny45 | samples/KvsAudioVideoStreamingSampleNew.c:229-265 | any 45 consecutive frames contain a key frame |
| FramePacing.AudioTurnBody | samples/KvsAudioVideoStreamingSampleNew.c:308-329 | one turn puts one frame, advances it and works out the sleep |
| FramePacing.PutAudioFrames | samples/KvsAudioVideoStreamingSampleNew.c:287-330 | puts exactly the frames of the turns that saw a video frame put, numbered and timed; none early |
| FramePacing.AudioSleepsUntilDue | samples/KvsAudioVideoStreamingSampleNew.c:320-329 | the audio loop sleeps only after a put that leaves it early, and then until just the time of the next frame |
| FramePacing.AudioFrameOfTurn | samples/KvsAudioVideoStreamingSampleNew.c:287-330 | a turn that reads the flag set puts one frame, when it starts |
| FramePacing.AudioNeverEarly | samples/KvsAudioVideoStreamingSampleNew.c:306-330 | no turn of a feasible run starts before the time of the frame it would put |
| FramePacing.AudioFramesNotEarly | samples/KvsAudioVideoStreamingSampleNew.c:306-330 | the same for the list of frames put |
| ConnectionStale.ActsExactly | src/source/ConnectionStaleStateMachine.c:46-75 | a reading is acted on exactly when it lies past the quiet time in the normal or the reset state |
| ConnectionStale.ResultExactly | src/source/ConnectionStaleStateMachine.c:27-75 | the connection is reset exactly then, in the normal state with the stream ready, and its status is returned; success otherwise |
| ConnectionStale.StepExactly | src/source/ConnectionStaleStateMachine.c:46-75 | a reading acted on leads to the reset state, 30 s of quiet and a verification time 60 s later; any other leaves everything but the noted time |
| ConnectionStale.QuietAfter | src/source/ConnectionStaleStateMachine.h:10-16 | after acting the machine stays quiet for the grace period, with the verification time 60 s later |
| ConnectionStale.ActedApart | src/source/ConnectionStaleStateMachine.c:46-75 | callbacks acted on are more than 30 s apart whatever the clock reads in between, as long as the quiet time fits the clock |
| ConnectionStale.GapAfterOne | src/source/ConnectionStaleStateMachine.h:12-16 | after one reading acted on, every next one acted on is more than 30 s later if and only if the quiet time fits the 64-bit clock |
| ConnectionStale.GapExactly | src/source/ConnectionStaleStateMachine.c:46-75 | over a run: wherever it is cut off and whatever is read next the gap is kept, if and only if the quiet time fits the clock for every reading acted on |
| ConnectionStale.StaysReset | src/source/ConnectionStaleStateMachine.c:27-75 | having acted once the machine is in its reset state for good |
| ConnectionStale.RateBound | src/source/ConnectionStaleStateMachine.c:46-75 | at most W / 30 s + 1 of them read within any interval of length W |
| ConnectionStale.ResetOnlyFirst | src/source/ConnectionStaleStateMachine.c:27-75 | the connection is reset at most once |
| ConnectionStale.ResetExactlyThen | src/source/ConnectionStaleStateMachine.c:27-75 | it is reset at a callback if and only if that is the first acted on, from the normal state, with the stream ready |
| ConnectionStale.Machine.constructor | src/source/ConnectionStaleStateMachine.c:7-25 | sets the four fields |
| ConnectionStale.Machine.UpdateTimestamp | src/source/ConnectionStaleStateMachine.h:12-16 | the timestamp macro with 64-bit wrap-around: no reading up to 30 s later is acted on unless the sum wraps |
| ConnectionStale.Machine.HandleConnectionStale | src/source/ConnectionStaleStateMachine.c:46-75 | one stale callback is the step, with its outcome and status |

## Left out

- Interleavings of the playback threads finer than the cuts, for example between the send call that ends a window and the assignment that suspends Send, or within the reload of the two window fields.
- PlaybackPackets.PacketsOnlyAfterStart: the send guard and the send are one step, so a RESET or STOP between them counts as coming after the packet.
- Liveness of the playback channel: its condition waits have no predicate, so a signal can be lost.
- Recv's own suspension, command assembly from bytes, client names and time-outs: a command or a disconnect is an event that needs a connected client. A time-out with the client's program still running hands the command switch an all-zero command; as any command may arrive at any time, it is covered.
- Shutdown of the playback channel (FmspServerDestruct) and thread creation failures.
- Liveview loops: compiled out, a near copy without the reload flag.
- Callbacks that call back into the provider while an aggregate runs, and what a free function does to the data it is given.
- CallbacksProvider.Handle.Create: does not model a failed allocation or the creation of the curl callbacks, which are code outside this component.
- The values of STATUS_NULL_ARG and STATUS_INVALID_ARG come from a header that is not part of this repository.
- NULL pointers to the stale state machine and a NULL stream source in the pacing loops: refused or skipped at once by the code.
- Structure alignment and the sizes themselves: the layout holds for all sizes.
- The data race of the method queue's destructor, which clears the queue outside the lock: the clearing is one step.
- RotatingLogger.OtherNamesNeverRemoved: names are atoms; a name such as `./journal_` resolves to the files that removal names, and these are removed.
- A crash in the middle of a log call, several loggers sharing the static call counter, and failing file operations.
- The start-up latency report, event metadata and failing puts of the pacing sample: they do not affect the times; rounding of the factor 0.9 in floating point is replaced by exact nine tenths rounded down.
- FramePacing.LeadReached: asks that the run fits the 64-bit clock.
- Authentication, retry, curl, device and stream information providers, file logger, sample players: thin or duplicated code with easier properties.
