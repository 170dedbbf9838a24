# Verification of the fuzzer's protocol, run control and vendored proxy algorithms

This project models the parts of the in-memory fuzzer whose correctness depends on state, order and
arithmetic, and proves what they promise. Everything is Dafny 4.11; `dafny verify dfyconfig.toml` checks it.

| module | what it models |
|---|---|
| `Arithmetic`, `Bytes`, `Wire` | quotients, fixed-width integers, the FUZZ packet format, and what draining a byte buffer means, independently of either end |
| `HostReceiver`, `TargetReceiver` | the two packet receivers, in C# over a list and in C over a 10000-byte buffer |
| `Delivery` | any number of threads in `send_packet`, one mutex, one socket, one reader: all interleavings |
| `PipeRegistry` | the RPIR/RPIP/RPIC protocol, in which names and ids are matched by order alone: all interleavings |
| `ExecCommand` | the EXEC command, encoded in C# and decoded in C |
| `OneTimeStream` | the block-structured byte queue and the plain queue it refines |
| `FuzzLocations`, `FuzzController`, `LocationHistory`, `RunBound`, `StopHistory`, `TriggerSchedule` | stop conditions, triggers, predefined locations that share a child, the fuzz loop, when and how often it runs a location, and what it records of the stops |
| `GdbQueue` | the GDB command queue with its re-entrant handlers and callbacks |
| `RecordLog`, `ByteHelper` | the process-record reader and the number decoder with C#'s masked shifts |
| `NameCache`, `BandLimiter`, `ChainSelection`, `DnsQuery`, `Base64` | the proxy's name cache, bandwidth limiter, parent selection, DNS question builder and Base64 codec |

Code that updates objects, arrays or lists in place is modelled as classes and methods over arrays and
fields; each method's `ensures` ties the new state to a function of the old one, and the lemmas are about those
functions. Systems of concurrent parties are state machines whose steps are the regions under a lock, single
`write()` calls and single reads; what they keep is proved over every run.

What the proofs found about the code, each stated by a lemma named below:

- A `count|n` stop condition lets its location run n + 1 times, because it compares with `>` (`CountedRuns`, `BoundedFuzzing`);
  Fuzzer/SampleConfigs/SampleFuzzDescription.xml:131 promises n.
- A `start|n` trigger, documented in lines 111-113 of the same file to run its location every n-th time, runs it
  every (n - 1)-th time from round n on if n > 1, because a run advances the counter that the controller has already
  advanced (`RunsOnSchedule`, `AsDocumentedIff`).
- A controller that is handed a snapshot finishes a logger run it has never started, at its first restore
  (`BuiltWithSnapshot`).
- Two concurrent callers of `RemoteRequestPipe` can swap the names of their pipes (`RaceSwapsNames`,
  `NamesRightIff`, `AlwaysRightIffSentAsEnqueued`), and the host's reader dies on the first clash of ids
  (`HostDiesIff`), which takes more than 65536 requests (`EveryEventByNumber`, `IdsWrapAround`).
- A response handler that queues a command at the prompt has that command finished in its own command's place,
  or kills the reader thread (`QueueingAtThePromptMisdirects`, `PromptKillsIff`); a finish callback that queues does
  similar harm, and `PromptIsSafeIff` says exactly when a prompt is safe.
- The big-endian decoder subtracts the offset twice and is right exactly at offsets that are multiples of 4
  (`BigEndianIffAligned`). The record-log reader uses only 0 and 4.
- An empty record log reads as one empty instruction (`LogRoundTrip`).
- The bandwidth limiter lets everything through at rates above 256000000, and at rates above 1000000 every call for
  fewer than 32 bytes, however many there are (`FreeIff`, `FreeRideIff`).
- The DNS builder asks for something other than the name unless every label has 1 to 63 bytes, so the empty name
  and names with a trailing dot are not among those it encodes (`QuestionIffLabelsOk`).
- The host's search for the magic word leaves out the last position at which it would fit; no packet is lost by
  it (`HostAndTargetAgree`).
- A packet of more than 9990 data bytes leaves the target's buffer full and ends its receive loop, with everything
  behind it unread (`AllDeliveredIffFits`).
- A Read of an empty OneTimeStream returns nothing at once, instead of waiting, if an empty Write has come after the
  last block was filled and read to its end (`BlocksIff`, `NothingWithoutWaiting`).

## Model

| member | source | states |
|---|---|---|
| `Bytes.Int16RoundTrip` | remote_control/remote_control.c:463-473 | reading a written integer gives its value truncated to 16 bits, hence the value itself exactly on the int16 range |
| `Bytes.CStringWhole` | remote_control/remote_control.c:505-513 | a byte string survives as a C string exactly if it holds no NUL |
| `Wire.Layout` | remote_control/remote_control.c:638-644 | the magic word reads FUZZ, then receiver, length with its low byte first, data |
| `Wire.FirstMagicIsFirst` | Fuzzer/RemoteControl/RemoteControlProtocol.cs:163-185 | no magic word stands before the position found, and none anywhere if nothing is found |
| `Wire.DecodeSplit` | Fuzzer/RemoteControl/RemoteControlProtocol.cs:118-155 | draining a buffer early and feeding the residue back with later bytes changes nothing, for every byte string, garbage included |
| `Wire.ChunkingInvisible` | Fuzzer/RemoteControl/RemoteControlProtocol.cs:100-155 | however a stream is cut into reads, packets, residue and failure are those of the undivided stream |
| `Wire.HostAndTargetAgree` | Fuzzer/RemoteControl/RemoteControlProtocol.cs:165 | the host's tighter search bound yields the same packets and the same failure as the target's on every stream |
| `Wire.WholePackets` | remote_control/remote_control.c:620-647 | encoded packets come off the front in order, whatever follows them |
| `Wire.CompleteIsLargest` | Fuzzer/RemoteControl/RemoteControlProtocol.cs:140-142 | the number of packets complete in n bytes is the largest k whose encoding fits in n bytes |
| `Wire.PrefixDelivers` | Fuzzer/RemoteControl/RemoteControlProtocol.cs:118-155 | every prefix of a packet stream decodes to exactly the packets complete in it; the residue is a proper prefix of the next packet |
| `HostReceiver.RemoteControlProtocol.FindFirstOccurance` | Fuzzer/RemoteControl/RemoteControlProtocol.cs:163-185 | finds the first occurrence that has a byte after it, and nothing exactly if there is none |
| `HostReceiver.AsciiRoundTrip` | Fuzzer/RemoteControl/RemoteControlProtocol.cs:145 | the ASCII bytes of a string read as that string |
| `HostReceiver.RemoteControlProtocol.ProcessBuffer` | Fuzzer/RemoteControl/RemoteControlProtocol.cs:118-155 | the packets found and the bytes left are those of draining the buffer; handlers are called for exactly the packets whose receiver has one, in order, each with the receiver's text and the packet's data |
| `HostReceiver.RemoteControlProtocol.Take` | Fuzzer/RemoteControl/RemoteControlProtocol.cs:145-153 | exactly the packet at the front is removed, its handler, if there is one, is called with its receiver and its data, and the outcome of the drain is unchanged |
| `HostReceiver.RemoteControlProtocol.CBRead` | Fuzzer/RemoteControl/RemoteControlProtocol.cs:100-112 | one read moves the receiver as the chunk-by-chunk decoder moves; reading goes on until a read of no bytes or a negative length |
| `HostReceiver.Receive` | Fuzzer/RemoteControl/RemoteControlProtocol.cs:95-155 | for every sequence of reads: the calls correspond one to one, in order, to the packets of the undivided stream whose receiver has a handler, and pass on receiver and data |
| `TargetReceiver.Receiver.CopyToStart` | remote_control/remote_control.c:459-461 | an overlapping move brings the old bytes to the front |
| `TargetReceiver.Receiver.Extract` | remote_control/remote_control.c:684-689 | taking a packet and moving what follows it to the front keeps the outcome of the drain and shrinks the buffer, so the rescan ends |
| `TargetReceiver.Receiver.Keep` | remote_control/remote_control.c:690-713 | moving an incomplete packet to the front ends the drain as specified |
| `TargetReceiver.Receiver.Scan` | remote_control/remote_control.c:666-715 | the scanning loop with its restarts drains the buffer as specified |
| `TargetReceiver.Receiver.OnRead` | remote_control/remote_control.c:660-717 | one read moves the receiver as the chunk-by-chunk decoder moves |
| `TargetReceiver.ReceivePacketLoop` | remote_control/remote_control.c:653-722 | for every stream and every list of read sizes, what process_packet has seen, what is buffered and what is left unread are exactly those of a sequence of reads into what is free of 10000 bytes |
| `TargetReceiver.DriveDecodes` | remote_control/remote_control.c:653-722 | those reads end in the drain of the bytes consumed, for every stream, and stop only at the end of the stream, at a full buffer, at a negative length, or when the list of reads is used up |
| `TargetReceiver.DriveReaches` | remote_control/remote_control.c:659-719 | on any prefix of a packet stream, from any point on, the loop reads all that comes before the first packet that is too long and the part of it that fills the buffer, and no more |
| `TargetReceiver.ReceivePackets` | remote_control/remote_control.c:653-722 | any prefix of any packet stream, cut in any way: exactly the packets complete within what the loop can reach are delivered, in order, and unchanged if no receiver holds a NUL |
| `TargetReceiver.NeverFills` | remote_control/remote_control.c:656-660 | what stays buffered of such a stream is short of 10000 bytes at every moment |
| `TargetReceiver.AllDeliveredIffFits` | remote_control/remote_control.c:653-722 | given enough reads of any sizes, the loop delivers exactly the packets before the first with more than 9990 data bytes; there, and only there, the buffer is full, and everything behind its 10000 bytes is never read; all packets are delivered iff all of them fit |
| `Delivery.RunKeeps` | remote_control/remote_control.c:631-647 | every run keeps: one thread at most in the critical section, and a stream of whole packets and at most one partial packet, which belongs to the mutex holder |
| `Delivery.StreamIsPrefix` | remote_control/remote_control.c:637-646 | what is on the wire is always a prefix of the packets in lock order |
| `Delivery.EndToEnd` | remote_control/remote_control.c:631-647 | for every number of threads, interleaving and cut into reads, the host has handled exactly the packets whose last byte it has read, in lock order, and buffers only the front of the next |
| `PipeRegistry.MsgPacketMeans` | remote_control/remote_control.c:329-388 | the packets of the pipe protocol: receivers RPIR, RPIP and RPIC, the id with its low byte first, then what was read |
| `PipeRegistry.HostPipes.HandlePacket` | Fuzzer/RemoteControl/RemoteControlProtocol.cs:246-289 | the three handlers move the tables as specified and call the subscribers, unless the reader dies, with the kind, the id and the bytes that the packet carries |
| `PipeRegistry.EveryEventByNumber` | Fuzzer/RemoteControl/RemoteControlProtocol.cs:215-289 | in every run every event carries the name enqueued with its request's number, and the target opens that request under the name sent with it; the reader dies only after more than 65536 requests |
| `PipeRegistry.RegistryAgreement` | Fuzzer/RemoteControl/RemoteControlProtocol.cs:215-289 | if requests are sent in the order of enqueueing, every RPIR, RPIP and RPIC resolves to the name the target opened, and the pending queue is the unanswered, the in-flight and the unsent names |
| `PipeRegistry.NamesRightIff` | Fuzzer/RemoteControl/RemoteControlProtocol.cs:215-289 | in every run every request answered has raised its event, and all names are right iff the requests answered so far were sent under the names enqueued with their numbers |
| `PipeRegistry.AlwaysRightIffSentAsEnqueued` | Fuzzer/RemoteControl/RemoteControlProtocol.cs:215-219 | with at most 65536 requests sent, all names are right however a run goes on without further calls iff the callers sent their requests, position by position, under the names they enqueued |
| `PipeRegistry.Flush` | remote_control/remote_control.c:312-339 | with at most 65536 requests sent, target and host can always go on until every one of them has been answered, with the reader alive |
| `PipeRegistry.EventsTellTheLife` | Fuzzer/RemoteControl/RemoteControlProtocol.cs:246-289 | in every run and for every request: its events, followed by what is in flight about it, are its RPIR, the data read from its pipe, byte for byte in the order read, and its RPIC once the pipe is closed |
| `PipeRegistry.DiesIff` | Fuzzer/RemoteControl/RemoteControlProtocol.cs:253-257 | a step kills the host's reader iff it handles an RPIR whose id is that of a pipe still registered |
| `PipeRegistry.HostDiesIff` | Fuzzer/RemoteControl/RemoteControlProtocol.cs:246-289 | in every run the reader is dead iff there has been such a step |
| `PipeRegistry.RaceSwapsNames` | Fuzzer/RemoteControl/RemoteControlProtocol.cs:215-219 | two callers that enqueue in one order and send in the other: both pipes are announced, each under the other's name |
| `PipeRegistry.IdsWrapAround` | remote_control/remote_control.c:316-317 | with 65536 pipes open the next RPIR reuses an id and kills the host's reader: the bound is sharp |
| `ExecCommand.Data` | Fuzzer/RemoteControl/RemoteExecCommand.cs:69-95 | the imperative encoder produces the specified encoding |
| `ExecCommand.ReadStringList` | remote_control/remote_control.c:532-572 | the list's strings behind the reserved places, closed by NULL, and the number of bytes read; no list exactly if the announced strings are not there |
| `ExecCommand.HandlerExec` | remote_control/remote_control.c:220-262 | name, path, argument and environment vectors as specified, or the early exit |
| `ExecCommand.ExecExample` | Fuzzer/RemoteControl/RemoteExecCommand.cs:69-95 | a command in bytes |
| `ExecCommand.ExecRoundTrip` | remote_control/remote_control.c:220-262 | for every command whose encoding fits a packet, the target gets what arrives of name and path, argv = path followed by the arguments, envp, both ended by NULL, and consumes exactly the encoding |
| `ExecCommand.WantedWhenPlain` | remote_control/remote_control.c:230-262 | for ASCII without NUL what the target starts has the very name, path, arguments and settings, with the path first in argv and NULL behind both vectors |
| `ExecCommand.ArrivesUnchangedIffPlain` | Fuzzer/RemoteControl/RemoteExecCommand.cs:75-91 | a string arrives unchanged exactly if it is ASCII without NUL |
| `ExecCommand.ExecEndToEnd` | remote_control/remote_control.c:653-722 | encoded on the host, sent after any packets, cut into reads in any way and received through the 10000-byte buffer: the command arrives, last, and is started as wanted iff it and all packets before it have at most 9990 data bytes; else only what precedes the first packet that is too long has arrived |
| `OneTimeStream.Stream.CreateNewBuffer` | Utils/IO/OneTimeStream.cs:201-206 | a further block changes nothing in what the stream holds |
| `OneTimeStream.Stream.BlocksIff` | Utils/IO/OneTimeStream.cs:54-55 | a Read waits iff nothing has been written or there is nothing to read, unless an empty write has opened a new block behind a full one that has been read |
| `OneTimeStream.Stream.Write` | Utils/IO/OneTimeStream.cs:117-142 | the bytes are appended to what the stream holds, the write cursor ends where it should, and a waiting reader can go on |
| `OneTimeStream.Stream.ReadBlock` | Utils/IO/OneTimeStream.cs:69-93 | one round of the loop takes bytes off the front in order; it leaves the list only from a lone block read to its end |
| `OneTimeStream.Stream.ReadLocked` | Utils/IO/OneTimeStream.cs:63-107 | returns exactly min(count, available) next bytes in order, writes nothing but zeros behind them, and empties the block list iff a lone full block had been read to its end |
| `OneTimeStream.Stream.Read` | Utils/IO/OneTimeStream.cs:49-115 | the same with waiting; it waits only if there is nothing to read, and returns nothing without waiting only with the cursors at the end of one block and the start of the next; the block list is not empty afterwards, so line 90 is not reached |
| `OneTimeStream.Play` | Utils/IO/OneTimeStream.cs:49-142 | every sequence of reads and writes, in any order, returns what the byte queue returns, and exactly the same reads wait |
| `OneTimeStream.NothingWithoutWaiting` | Utils/IO/OneTimeStream.cs:54-55 | a session in which a Read of an empty queue returns nothing at once instead of waiting |
| `OneTimeStream.NothingLostOrRepeated` | Utils/IO/OneTimeStream.cs:49-142 | all bytes read, in order, followed by those still queued, are the bytes written |
| `FuzzLocations.Trigger.NextFuzzRun` | Fuzzer/FuzzDescriptions/Trigger.cs:54-59 | the counter moves as specified, in 32-bit arithmetic |
| `FuzzLocations.Trigger.IsTriggered` | Fuzzer/FuzzDescriptions/Trigger.cs:61-87 | fires, and uses up the first-time flag, as specified |
| `FuzzLocations.TriggeredIff` | Fuzzer/FuzzLocations/BaseFuzzLocation.cs:224-235 | a location is triggered iff one of its triggers is of the kind asked for and its address or its count has come, or it is not counted, or fires on the first occasion; only that occasion is used up |
| `FuzzLocations.CountFuzzStopCondition.StartFuzzRound` | Fuzzer/FuzzDescriptions/IFuzzStopCondition.cs:46-49 | the round counter moves as specified, in 32-bit arithmetic |
| `FuzzLocations.BaseFuzzLocation.InitChanges` | Fuzzer/FuzzLocations/BaseFuzzLocation.cs:103-129 | builds components of its own for each user, puts them in place and registers them |
| `FuzzLocations.BaseFuzzLocation.ApplyChangeableId` | Fuzzer/FuzzLocations/BaseFuzzLocation.cs:208-217 | puts registered components in place, refuses others, and does nothing for null |
| `FuzzLocations.BaseFuzzLocation.AskTriggered` | Fuzzer/FuzzLocations/BaseFuzzLocation.cs:224-235 | asks the triggers up to the first that fires; those after it keep their state |
| `FuzzLocations.BaseFuzzLocation.RunBase` | Fuzzer/FuzzLocations/BaseFuzzLocation.cs:194-206 | counts the round and advances every trigger once |
| `FuzzLocations.PredefinedFuzzLocation.Finished` | Fuzzer/FuzzLocations/PredefinedFuzzLocation.cs:83-90 | answers for its own components and leaves them as they are |
| `FuzzLocations.PredefinedFuzzLocation.Triggered` | Fuzzer/FuzzLocations/PredefinedFuzzLocation.cs:42-46 | answers for its own components and moves only those |
| `FuzzLocations.PredefinedFuzzLocation.RunShared` | Fuzzer/FuzzLocations/PredefinedFuzzLocation.cs:77-81 | runs the child on its own components and moves only those |
| `FuzzLocations.PredefinedFuzzLocation.NextRunShared` | Fuzzer/FuzzLocations/PredefinedFuzzLocation.cs:54-58 | advances its own triggers and nothing else |
| `FuzzLocations.Dispatch` | Fuzzer/FuzzLocations/PredefinedFuzzLocation.cs:42-90 | a call through one of many locations on a shared child is answered from its own components; those of all others stay as they are |
| `FuzzLocations.AddLocation` | Fuzzer/FuzzLocations/PredefinedFuzzLocation.cs:71-75 | configuring one more location on the child, which puts its components in place there, changes nothing for the others |
| `FuzzLocations.SharedSession` | Fuzzer/FuzzLocations/PredefinedFuzzLocation.cs:37-90 | isolation: for any number of locations on one child, configured at any time, and any interleaving of calls, each call is answered as a private location that has seen only its own calls would answer |
| `FuzzLocations.FinishedIff` | Fuzzer/FuzzLocations/PredefinedFuzzLocation.cs:77-90 | in a shared session a location with condition count n answers that it is finished iff it has been run more than n times through its own wrapper |
| `FuzzController.FuzzController.InvokeFuzzLocations` | Fuzzer/FuzzController.cs:178-190 | finished locations go, triggered ones are run and logged under the current prefix, the others stay, in order |
| `FuzzController.AskThenRemove` | Fuzzer/FuzzController.cs:181-189 | asking everyone and then removing the noted locations one by one leaves exactly the unfinished ones, as they were after being asked |
| `FuzzController.FuzzController.RestoreAndFuzzNext` | Fuzzer/FuzzController.cs:163-176 | the whole restore: End triggers, finish, restore, next prefix, start, next run, Start triggers |
| `FuzzController.FuzzController.Pass` | Fuzzer/FuzzController.cs:132-159 | one pass of the loop at any debugger stop, equal to the step that `StopHistory.TallyPass` and the bracketing lemmas are about |
| `FuzzController.FuzzController.Fuzz` | Fuzzer/FuzzController.cs:125-161 | the loop over all stops, until no location is left, equal to the run that `StopHistory.EveryCrashIsLogged` and the bracketing lemmas are about |
| `FuzzController.RunsAreBracketed` | Fuzzer/FuzzController.cs:125-215 | built without a snapshot: in every reachable loop state a snapshot exists iff a logger run is open, run k starts and finishes under prefix k, and locations run and errors are logged only inside |
| `FuzzController.BuiltWithSnapshot` | Fuzzer/FuzzController.cs:133-156 | built with a snapshot: the log gets out of bracket iff there is a location to fuzz and some stop is at the restore address or no breakpoint |
| `FuzzController.RestoresIff` | Fuzzer/FuzzController.cs:129-156 | with a snapshot from the start, something is restored iff the loop is entered and there is such a stop |
| `StopHistory.EveryCrashIsLogged` | Fuzzer/FuzzController.cs:125-161 | with or without a snapshot at the start: the loop looks at the stops in order until no location is left; the snapshot is taken at the first stop at its address; every stop that is no breakpoint and comes while there is a snapshot is logged as an error, in its pass and under the prefix of the run it ends, and nothing else is; those and the breakpoints at the restore address are restored from |
| `StopHistory.TallyPass` | Fuzzer/FuzzController.cs:132-159 | what one pass takes, logs and restores |
| `FuzzController.PrefixCountsRestores` | Fuzzer/FuzzController.cs:163-176 | the prefix is always one ahead of the number of restores |
| `LocationHistory.LocationsDoNotInteract` | Fuzzer/FuzzController.cs:163-190 | whatever the other locations and the stops are, a location's state, presence and runs after any run of the loop follow from its own configuration and the number of restores |
| `RunBound.CountedRuns` | Fuzzer/FuzzController.cs:163-190 | a location with condition count n, whatever its triggers and the rest of the list, is run at most n + 1 times and exactly that often once it is gone; with an unconditional Start trigger among its triggers it has run at least min(r, n + 1) times after r restores and is gone after n + 2; without End triggers beside it the number is exactly min(r, n + 1) |
| `RunBound.BoundedFuzzing` | Fuzzer/FuzzController.cs:129-190 | if every location has a count condition and, among whatever other triggers, an unconditional Start trigger, there are at most max(n) + 2 restores, after that many the list is empty, and once it is empty every location has run exactly n + 1 times |
| `TriggerSchedule.OneRound` | Fuzzer/FuzzDescriptions/Trigger.cs:54-75 | a round of a location with a counting Start trigger, with or without the `!`, by itself: it runs exactly in the scheduled rounds, and its counter after any number of rounds is known in closed form |
| `TriggerSchedule.RunsOnSchedule` | Fuzzer/FuzzController.cs:163-190 | among any other locations and for any debugger stops, such a location is run exactly once under the prefix of each scheduled round, in order, and under no other |
| `TriggerSchedule.AsDocumentedIff` | Fuzzer/FuzzDescriptions/Trigger.cs:54-75 | the schedule is the documented one (every n-th round, with `!` also the first) iff n is 1 |
| `TriggerSchedule.ScheduleMembers` | Fuzzer/FuzzController.cs:163-176 | the prefixes scheduled are exactly those of the scheduled rounds so far |
| `GdbQueue.GDBSubProcess.QueueCommand` | Fuzzer/TargetConnectors/GDB/GDBSubProcess.cs:146-154 | enqueues and processes as specified, nested calls included |
| `GdbQueue.GDBSubProcess.ProcessTheQueue` | Fuzzer/TargetConnectors/GDB/GDBSubProcess.cs:165-185 | writes the next command if gdb is ready; a command without a handler is finished at once |
| `GdbQueue.GDBSubProcess.Receive` | Fuzzer/TargetConnectors/GDB/GDBSubProcess.cs:299-360 | a line goes to the current command's handler or else to the permanent ones, with every answer and exception path |
| `GdbQueue.GDBSubProcess.ReceivePrompt` | Fuzzer/TargetConnectors/GDB/GDBSubProcess.cs:268-285 | the prompt makes gdb ready, is offered to the handlers and then releases the queue |
| `GdbQueue.RunIsSafe` | Fuzzer/TargetConnectors/GDB/GDBSubProcess.cs:146-185 | in every run, re-entrant queueing included: written followed by queued commands are all queued ones in order, a prompt precedes each write, nothing is finished twice or before it is written |
| `GdbQueue.AnswersReachTheirCommands` | Fuzzer/TargetConnectors/GDB/GDBSubProcess.cs:268-338 | if handlers answer Handled at the prompt and queue nothing there, no command is current when the next is written and every answer finishes the command that asked |
| `GdbQueue.PromptIsSafeIff` | Fuzzer/TargetConnectors/GDB/GDBSubProcess.cs:268-338 | with a command current and everything in order so far, whatever is queued next finds everything in order iff the handler answered Handled and queued nothing and no subscriber of the command's finished event queues anything |
| `GdbQueue.QueueingAtThePromptMisdirects` | Fuzzer/TargetConnectors/GDB/GDBSubProcess.cs:311-324 | a run in which the command queued by a handler is finished in place of the handler's own |
| `GdbQueue.PromptKillsIff` | Fuzzer/TargetConnectors/GDB/GDBSubProcess.cs:268-337 | with a command current, a prompt kills the reader thread iff its handler queues, the command written as a consequence has no handler, and the answer is Handled or an exception |
| `GdbQueue.PermanentAsked` | Fuzzer/TargetConnectors/GDB/GDBSubProcess.cs:339-358 | a line no command waits for is offered to the permanent handlers up to the first that does not answer NotHandled; what these queue is queued in order; it kills the thread iff that one throws or asks for a line although gdb is ready |
| `GdbQueue.LineFinishesIff` | Fuzzer/TargetConnectors/GDB/GDBSubProcess.cs:306-338 | between prompts the answer Handled finishes the current command and nothing else happens to the log; any other answer leaves it current |
| `GdbQueue.NeverIdle` | Fuzzer/TargetConnectors/GDB/GDBSubProcess.cs:165-185 | gdb is never left ready while something is queued |
| `GdbQueue.PromptReleases` | Fuzzer/TargetConnectors/GDB/GDBSubProcess.cs:268-285 | a prompt for which nobody queues anything releases the oldest queued command, and it alone |
| `ByteHelper.ByteArrayToUInt64` | Utils/ByteHelper.cs:132-145 | the loop computes the sum of the shifted bytes in 64-bit arithmetic |
| `ByteHelper.SumIsBigEndian` | Utils/ByteHelper.cs:141 | at offsets that are multiples of 4 and for up to 8 bytes the sum is the big-endian value |
| `ByteHelper.BigEndianIffAligned` | Utils/ByteHelper.cs:141 | the decoder is right for every buffer iff the offset is a multiple of 4 |
| `ByteHelper.SumIsLittleEndian` | Utils/ByteHelper.cs:139 | the little-endian decoder is right at every offset |
| `ByteHelper.BigEndianRoundTrip` | Utils/ByteHelper.cs:132-145 | the big-endian value of the n bytes of a number is the number |
| `RecordLog.Section.ReadExactly` | Fuzzer/TargetConnectors/GDB/CoreDump/GDBCoreDump.cs:203-207 | all bytes asked for, or failure |
| `RecordLog.ReadEntry` | Fuzzer/TargetConnectors/GDB/CoreDump/GDBCoreDump.cs:136-188 | the entry at the front is taken off as specified; at least one byte is consumed |
| `RecordLog.Read` | Fuzzer/TargetConnectors/GDB/CoreDump/GDBCoreDump.cs:113-196 | the reader computes the specified parse of its section, failures included |
| `RecordLog.AddEntriesKeepsOrder` | Fuzzer/TargetConnectors/GDB/CoreDump/GDBCoreDump.cs:168-186 | memory and register changes keep their order, each kind for itself |
| `RecordLog.LogRoundTrip` | Fuzzer/TargetConnectors/GDB/CoreDump/GDBCoreDump.cs:113-196 | parsing an encoded log gives back each instruction's signal, count and changes, and one last instruction for entries after the last end marker; an empty log gives one empty instruction |
| `RecordLog.LogExample` | Fuzzer/TargetConnectors/GDB/CoreDump/GDBCoreDump.cs:113-196 | a log in bytes |
| `RecordLog.BadMagicIff` | Fuzzer/TargetConnectors/GDB/CoreDump/GDBCoreDump.cs:115-123 | a log is refused for its magic number iff it begins with four other bytes |
| `RecordLog.UnknownRegisterFails` | Fuzzer/TargetConnectors/GDB/CoreDump/GDBCoreDump.cs:177-181 | a change of a register that is not known fails the log, whatever well-formed part comes before |
| `RecordLog.TruncatedFails` | Fuzzer/TargetConnectors/GDB/CoreDump/GDBCoreDump.cs:203-207 | a log that breaks off within an entry fails |
| `RecordLog.TruncatedEndFails` | Fuzzer/TargetConnectors/GDB/CoreDump/GDBCoreDump.cs:148-155 | so does one that breaks off within an end marker |
| `NameCache.NameToHash` | test_sources/3proxy/src/auth.c:665-672 | byte i of the hash is the sum, modulo 256, of every eighth character of the name from the i-th on, upper-cased and counted from the blank |
| `NameCache.SameHashIff` | test_sources/3proxy/src/auth.c:665-672 | two names have the same hash iff these sums agree modulo 256 |
| `NameCache.OneCharacterMatters` | test_sources/3proxy/src/auth.c:669 | replacing one character changes the hash iff the upper-case form changes |
| `NameCache.CaseDoesNotMatter` | test_sources/3proxy/src/auth.c:669 | names equal up to the case of ASCII letters have the same hash |
| `NameCache.IndexFromWords` | test_sources/3proxy/src/auth.c:674-679 | the bucket follows from the two little-endian words of the hash in 32-bit arithmetic |
| `NameCache.NewestMeans` | test_sources/3proxy/src/auth.c:763-773 | the answer is the value of the matching unexpired entry that has none like it behind it, and 0 without one |
| `NameCache.PrunedMeans` | test_sources/3proxy/src/auth.c:763-776 | a lookup frees exactly the expired entries in front of the one it finds, or all of the bucket if it finds none |
| `NameCache.RememberThenAsk` | test_sources/3proxy/src/auth.c:726-749 | after an insertion a lookup of the name gives the new value, until it expires, iff it is not 0, an entry is free and the bucket is empty or holds this hash; else what it gave before |
| `NameCache.Cache.Thread` | test_sources/3proxy/src/auth.c:719-721 | links all entries into one list |
| `NameCache.Cache.Init` | test_sources/3proxy/src/auth.c:695-724 | a well-formed cache with all entries free, or the error code and the state it leaves |
| `NameCache.Cache.Add` | test_sources/3proxy/src/auth.c:726-749 | keeps the structure; an entry is accepted exactly if its value is not 0, there is a free entry and its bucket is empty or holds the same hash; it then heads its bucket, and nothing else changes |
| `NameCache.Cache.Resolve` | test_sources/3proxy/src/auth.c:751-779 | keeps the structure; frees exactly the expired entries met before the one found; the answer is the newest accepted unexpired value for the hash, else 0 |
| `NameCache.Cache.Search` | test_sources/3proxy/src/auth.c:763-778 | the walk along a bucket, unlinking on the way, finds that answer and leaves that bucket |
| `NameCache.ShapeAfterUnlink` | test_sources/3proxy/src/auth.c:765-768 | unlinking an entry and pushing it on the free list keeps every list acyclic, disjoint and complete |
| `NameCache.ShapeAfterInsert` | test_sources/3proxy/src/auth.c:732-742 | so does moving the head of the free list to the front of a bucket |
| `NameCache.ShapeAfterReject` | test_sources/3proxy/src/auth.c:743-747 | so does giving a rejected entry back |
| `NameCache.AnswersAfterInsert` | test_sources/3proxy/src/auth.c:739-742 | an accepted entry becomes the newest of its hash and changes no other answer |
| `NameCache.AnswersAfterUnlink` | test_sources/3proxy/src/auth.c:764-769 | dropping an expired entry changes no answer from then on |
| `NameCache.EveryEntryInOneList` | test_sources/3proxy/src/auth.c:695-779 | in a well-formed cache every entry is on the free list or in exactly one chain, and occurs there once |
| `NameCache.NoEntryIsLost` | test_sources/3proxy/src/auth.c:695-779 | after any session free entries and entries in buckets add up to the size of the last initialization |
| `NameCache.Session` | test_sources/3proxy/src/auth.c:695-779 | for any sequence of initializations, failed ones included, insertions, and lookups at non-decreasing times every lookup is answered with the newest accepted unexpired value for its hash, else 0, where what is accepted is itself a function of the sequence |
| `BandLimiter.ChargeAll` | test_sources/3proxy/src/auth.c:452-468 | every limiter of one direction is charged once, and the longest delay is found |
| `BandLimiter.BandLimit` | test_sources/3proxy/src/auth.c:452-487 | both directions; the result is the longest delay in whole milliseconds |
| `BandLimiter.DelayIsTimeLeft` | test_sources/3proxy/src/auth.c:462-464 | the delay is the time left until the absolute deadline, absent wrap-around |
| `BandLimiter.ChargeIsLeakyBucket` | test_sources/3proxy/src/auth.c:462-467 | a call that is not a restart moves the deadline to max(now, deadline) + cost, exactly if the sum fits in 32 bits |
| `BandLimiter.CostIsBoundedByTime` | test_sources/3proxy/src/auth.c:452-487 | if the caller honours the delay returned, everything charged before that call is below the elapsed time plus one millisecond, however many calls there were |
| `BandLimiter.Throughput` | test_sources/3proxy/src/auth.c:452-487 | in bytes: in a session neither restarted nor overflowed whose caller sleeps as told, eight bits for each byte passed are at most the rate times the elapsed time and one millisecond, up to the stated rounding |
| `BandLimiter.DelayAfterOne` | test_sources/3proxy/src/auth.c:462-467 | after one call to an idle limiter the delay times the rate is eight bits a byte, at most, and no less than the rounding takes off |
| `BandLimiter.CostPerByte` | test_sources/3proxy/src/auth.c:467 | up to a million bits per second the charge for a byte is eight million over the rate, rounded down |
| `BandLimiter.CostPerGroup` | test_sources/3proxy/src/auth.c:467 | above that the charge for each whole group of 32 bytes is 256 million over the rate, rounded down |
| `BandLimiter.RestartedIff` | test_sources/3proxy/src/auth.c:453-461 | a limiter is restarted, without delay, iff it is new, its last use lies in the future, or it is more than two minutes old |
| `BandLimiter.LongestCoversEach` | test_sources/3proxy/src/auth.c:465 | the delay returned covers that of every limiter |
| `BandLimiter.LongestIsOne` | test_sources/3proxy/src/auth.c:465 | the delay returned is 0 or that of one of the limiters |
| `BandLimiter.FreeIff` | test_sources/3proxy/src/auth.c:467 | a call costs nothing iff it is for no bytes, or the rate is above 256000000, or it is above 1000000 and the call is for fewer than 32 bytes |
| `BandLimiter.FreeRideIff` | test_sources/3proxy/src/auth.c:467 | any number of calls costs nothing in total iff each of them is free |
| `ChainSelection.SelectParents` | test_sources/3proxy/src/auth.c:267-286 | a parent is selected iff none of its group has been and it takes all the weight left, or its draw times the weight left is at most its weight times 12347; the loop counts those selected |
| `ChainSelection.SelectingDraws` | test_sources/3proxy/src/auth.c:269-271 | of the 12347 draws, those that select a parent are as many as its share of the weight left, rounded up to the next whole number |
| `ChainSelection.OnePerGroup` | test_sources/3proxy/src/auth.c:267-286 | within a group that uses up the weight left, one parent is selected unless one has been, and the next parent starts a new group, whatever is drawn |
| `ChainSelection.ExactSumUsesUp` | test_sources/3proxy/src/auth.c:274-278 | positive weights whose sum is exactly the weight left use it up |
| `ChainSelection.OneParentPerGroup` | test_sources/3proxy/src/auth.c:267-286 | in a list of groups that each use up 1000 exactly one parent of every group is selected, for every outcome of the draws |
| `ChainSelection.AtMostOneInRest` | test_sources/3proxy/src/auth.c:267-286 | an incomplete last group has at most one |
| `ChainSelection.EveryParentCanBeSelected` | test_sources/3proxy/src/auth.c:269-273 | for every parent of a group there are draws that select it |
| `DnsQuery.StrChr` | test_sources/3proxy/src/auth.c:834 | the first dot from a position on, before the terminating NUL |
| `DnsQuery.WriteLengths` | test_sources/3proxy/src/auth.c:834-835 | the in-place loop writes exactly the length-prefixed labels and touches nothing else; a length byte that equals a dot is not taken for one |
| `DnsQuery.BuildQuery` | test_sources/3proxy/src/auth.c:818-840 | the whole query: a header that reads, as section 4.1.1 of RFC 1035 says, as a standard query with recursion desired, one question and no records; labels, root, type and class; names are cut at 255 bytes |
| `DnsQuery.JoinSplit` | test_sources/3proxy/src/auth.c:834 | the labels of a name joined with dots are the name |
| `DnsQuery.LabelsReadBack` | test_sources/3proxy/src/auth.c:834-837 | reading the labels as section 3.1 of RFC 1035 says gives the dot-split name iff all labels have 1 to 63 bytes |
| `DnsQuery.QuestionIffLabelsOk` | test_sources/3proxy/src/auth.c:818-840 | the question reads as the dot-split name, type A, class IN exactly for names of at most 253 bytes with such labels (sections 3.1 and 4.1.2 of RFC 1035) |
| `Base64.DigitsAreRfc` | test_sources/3proxy/src/base64.c:11-12 | the digit table is Table 1 of RFC 4648 |
| `Base64.ValuesAreRfc` | test_sources/3proxy/src/base64.c:15-25 | the value table is its inverse and refuses every other character |
| `Base64.GroupIsRfc` | test_sources/3proxy/src/base64.c:32-35 | each group of one to three bytes is encoded and padded as section 4 of RFC 4648 says |
| `Base64.En64` | test_sources/3proxy/src/base64.c:27-39 | the loop writes the encoding and a NUL behind it |
| `Base64.De64` | test_sources/3proxy/src/base64.c:41-81 | the loop writes the decoded bytes and returns their number, or -1; it never writes more than three bytes for every four characters of the input, nor more than 3 * max(1, maxlen / 4), and needs only that much room |
| `Base64.Base64RoundTrip` | test_sources/3proxy/src/base64.c:27-81 | decoding an encoding gives back as many bytes as maxlen allows for, and -1 for the empty string |
| `Base64.LineRoundTrip` | test_sources/3proxy/src/base64.c:77-78 | the same if a carriage return and anything else come behind the encoding |
| `Base64.FrontSkipped` | test_sources/3proxy/src/base64.c:46-49 | a plus and a blank in front are skipped, and an empty line holds nothing |
| `Base64.RefusedIff` | test_sources/3proxy/src/base64.c:52-63 | a group is refused iff one of its characters is neither a digit nor, in the last two places, padding |
| `Base64.RoundTripIff` | test_sources/3proxy/src/base64.c:27-81 | all bytes come back iff there are any and they make a single group or maxlen covers the whole encoding |

## Left out

- Sockets, FIFOs, posix_spawn, log files and process I/O: byte sequences, event sequences and parameters stand for them; a `write()` or `socksendto` is complete.
- Host writers: SendPacket takes no lock, so the host is taken to have one writer at a time.
- Negative length fields on the target: the model stops in a fault state; on the host they are the exception that ends reading.
- process_packet's dispatch table and the ECHO and PROC handlers.
- Error returns of thread_request_pipe: one step that ends the thread without an RPIC.
- ExecCommand.ReadStringList: what the target does with a string that reaches beyond the packet is left open (no result), because the source reads past it; `status` replies are left out.
- OneTimeStream.Stream.Read: one reader; the writes that arrive while it waits are a parameter.
- FuzzController.FuzzController.Fuzz: locations are values with stop conditions and triggers, which `FuzzLocations.SharedSession` justifies for shared children too; what a location's Run does to the target, data generators and log contents are left out, and so are the preconditions run on a pool thread and the pass before the first debugger stop.
- GDB response handlers: scripts that say what they queue and how they answer; matching of gdb's output and the assembly of lines are left out.
- RecordLog.Read: sections of 2 GB and more, whose sizes .NET cannot index.
- NameCache.Cache.Add: each call is one step; the source looks at the free list before it takes the lock. The ttl that hashresolv also reports is computed but nothing is proved about it.
- BandLimiter.BandLimit: which limiters apply to a client is a parameter; a rate of 0 divides by zero in the source and is excluded.
- ChainSelection.SelectParents: what is done with a selected parent (auth.c:287-312): a parent with neither address nor port ends the pass with success, and an error ends it with failure, so later groups are not visited. The product of a weight and 12347 is taken not to overflow.
- DnsQuery.BuildQuery: reading the reply.
- Names with a NUL and characters beyond 16 bits: a string is its C string, or its ASCII bytes with one '?' per character above 127.
- XML configuration, type lookup, scripting, the remaining commands, the analyzers and the rest of the proxy: left out as a whole.
