# A verified model of the Fuchsia debug server

`debugserver` is a GDB Remote Serial Protocol stub. This project models its protocol
engine, its command handler, the inferior it controls and the codecs between them, plus
four walkers from the support libraries and the Intel PT tool, and proves what every
run of them keeps.

| files | what they model |
|---|---|
| `Notifications`, `RspServers`, `StopTexts` | the notification queue, the pending notification, resend timers, the `vStopped` drain, write tasks and the wire, first as steps of a state machine, then as an object that refines it with real bytes, the command handler and the inferior attached; what the peer is told for each exception |
| `CommandHandlers`, `CommandRules`, `CommandChecks`, `Continuation`, `CommandText`, `QueryTexts` | the handlers of `c C D g G H m M q Q T v`, the two passes of `vCont`, the texts of `vRun`, of the thread listing and of the commands that read and write data; what each packet is answered with and does (`CommandRules`), and on which packets and in which states a check fails (`CommandChecks`) |
| `Processes`, `Threads`, `ExceptionPorts`, `Breakpoints` | the life cycle of the inferior, single-stepping through the trap flag, exception keys with delayed dispatch, software breakpoints |
| `PacketCodec`, `Hex`, `ThreadIds`, `ThreadActions`, `StopReply`, `RegisterTexts`, `Prelude` | framing with escapes and checksum, hex text, thread ids, the `vCont` list, stop replies, register blocks |
| `Symtab`, `BuildIds`, `DsoLists`, `TraceDump` | symbol sort and search, the ELF note walk, the sorted module list, the chunked trace dump |

`dafny verify dfyconfig.toml` checks everything.

How the parts meet: `RspServers.RspServer.Serve` takes any sequence of inputs (bytes from the
peer, exceptions, timers, tasks of the two loops). Its invariant says that the server's
fields are the state that some run of the `Notifications` machine reaches, that its bytes are
the frames of that run, and that the inferior satisfies `Processes.Process.Valid`; its log says
which steps each input was. So every `lemma` about runs in `Notifications` holds of the server, and
`ReplyRule`, `WireRule`, `AnswersRule`, `ReplyTextRule` and `ResendRule` say so for those that need all
parts at once. What a command answers and does is stated apart from the handlers, over values:
`CommandRules.Rule` relates a view of the inferior before, the packet, the reply and the view after.
Each handler is proved against it, and `OnBytesRead` carries it from the bytes read to the packet posted.

## Main results

- Every run of the server, whatever the peer, the kernel and the timers do (`Serve`): all invariants hold until a check of the source fails, and the checks fail exactly for the inputs and states of `FailsOn`. Each `$` packet carries the reply of the command it answers (`ReplyTextRule`), no command is answered twice (`AnswersRule`), the replies add up (`ReplyRule`), an event is announced once and again for each timer that goes off (`ResendRule`), and what is on the wire is in posting order with each `+` ahead of its answer (`WireRule`).
- Notifications over every run: nothing is lost or reordered (`NothingLostOrReordered`), only the pending one is repeated (`OnlyPendingRepeats`), exactly one timer if and only if no stale one was armed (`PendingHasOneTimerIff`).
- Every command: what it answers and what becomes of the inferior, thread by thread (`HandleCommand` with `Rule`), exactly when a check fails (`TripsOn`) and exactly when the reply does not fit (`RepliesTooLong`).
- `vCont` from the text to the threads: the grammar both ways (`ParseIff`), the round it makes (`RunActions`), all or nothing except under an exact condition (`AllOrNothingIff`), what `vCont;c` and `vCont;s` leave (`ContinueCommand`, `StepCommand`).
- Packets: exactly what is accepted (`VerifyIff`), and exactly which payloads survive framing (`VerifyOfFrame`).
- Threads over every run: a single-step breakpoint exactly while stepping, whatever fails (`RunKeepsPaired`), and exactly when the cached registers are right (`UpToDateIff`, `PrintsRightAfterIff`).
- Keys over every run: never reused, and a delayed exception reaches the callback it was meant for or none (`KeysNeverReused`, `NoStaleDispatch`).
- Breakpoints over every run: invisible to what is written around them, and gone without trace (`BreakpointsAreInvisible`, `AllRemovedRestores`).
- The walkers: sort and search against a scan (`LookUp`), notes against their encoding and on any bytes (`WalkReadsNotes`, `WalkIff`), the sorted list against what was added (`LookupFindsModule`), the chunked dump against the place where it must end (`WriteBufferData`, `HaltsOnce`).

## Hypotheses

- Task runners are first in, first out. Socket writes succeed; a failed one ends the session.
- A system call happens completely or not at all. Which calls succeed is a parameter and is arbitrary.
- The kernel names objects with ids other than 0 and 2^64-1, gives out handles to existing objects only, sends no exceptions for threads that have exited, and starts a thread only in a live process (`HonestKernel`, `KernelIds`, `Honest`).
- What a successful call returns is well formed: the launchpad has a handle, and it is one of a process (lib/inferior-control/process.cc:89 and 101), a register set has the size it should (lib/inferior-control/registers.cc:57), waiting for a killed process ends with the signal waited for (lib/inferior-control/process.cc:423), and signal numbers are less than 255 (bin/debugserver/server.cc:441).
- The registers of a thread at a software breakpoint can be read while the module list is being built (lib/inferior-control/process.cc:651). This is the one check on a failed call that is excluded: see "Left out".
- There is one inferior, so the branches for "no current process" do not occur.
- `ftl` number and string helpers are given their plain meaning: base 16, all of the text, a value that fits; blanks, tabs and line ends are white space.
- A read of a trace buffer that succeeds reads all it was asked for.

## Findings

The model follows the code. Where the code does not do what its comments or its checks say, the exact condition is proved:

- `c` with no current thread while attached fails a check, with an address if the process is live: the program it is meant to start cannot exist between commands (`Handle_c`).
- `C` never accepts an address, because the text it parses still has the semicolon (`Handle_C`).
- The checks at the start of both `Initialize` functions fail exactly after a `vRun` that was set up and then failed (`Handle_vRun`, `Handle_vAttach`). The check on the id of the new process fails whenever the id cannot be had (`Initialize`, `Handle_vRun`).
- A valid `vCont` for a process that is not live fails a check, and so do an entry for process 0 and a pick-one entry for another process (`Handle_vCont`).
- `q` or `Q` alone fails a check (`HandleGeneral`). A reply of 4092 bytes or more fails another: exactly an `m` of 2046 bytes or more that can be read, a first thread query with too many threads, and a `qXfer` with an offset behind the end of the vector and a large length (`HandleCommand`, `Handle_m`, `ListFitsIff`, `AuxvFitsIff`).
- The check that two requests for the thread list agree fails for whichever command or exception looks at a stale list while the number of threads changes (`TripsOn`, `RefreshAllThreads`; the source calls the requests racy).
- If the thread list is stale, cannot be read for the first pass of `vCont` and can for the second, the second pass runs on threads the first one has not seen: the exact condition is `AllOrNothingIff`, a run is `ReplacedListRuns`.
- The check that there is a thread for an exception fails if the thread is not filed and cannot be opened. The check that a starting thread is new fails if the thread was listed and continued while its exception was waiting (`Processes.Process.OnException`, `ContinuedBeforeItsStart`).
- `g` shows the registers as they were last read or written, not as they are: the exact condition is `PrintsRightAfterIff`, after a reported stop `PrintsRightAfterStopIff` and `ShowStopped`; a thread that has just started is shown with zeros (`StartedThreadPrintsZeros`).
- `c` with an address on a new thread writes zeros to all its other registers (`SetPcKeepsOthersIff`).
- A notification allocated where an acknowledged one was inherits its timer if that is still armed (`PendingHasOneTimerIff`, `ReusedAddressArmsTwice`).
- Taking out a single-step breakpoint reports success even if the flag stays set (`RemoveStepAlwaysReportsSuccess`); a `vCont` continue becomes a step if the resume fails (`ContinueStepsIff`).
- A write to a breakpoint's address is lost when the breakpoint goes (`WriteSurvivesIff`).
- `CompareSymbol` truncates to 32 bits (`ComparesByAddressIff`, `OneSymbolIff`).
- `ReadBuildId` leaves its buffer alone for an empty id, and does not see one in the last place of a segment (`StoreId`, `WalkReadsNotes`).
- A trace buffer handle that cannot be had ends the dump with success (`ShortSuccessIff`).

## Model

| member | source | states |
|---|---|---|
| Notifications.NothingLostOrReordered | bin/debugserver/server.cc:250-281 | in every run, the events transmitted for the first time (announced or drained), followed by the queue, are all events ever queued, in order |
| Notifications.OnlyPendingRepeats | bin/debugserver/server.cc:264-281 | a step shows an event again only if that event is the pending one |
| Notifications.Conservation | bin/debugserver/server.cc:302-327 | in every run, events drained or acknowledged + 1 if pending + queue length = events queued; a non-empty queue implies a pending notification |
| Notifications.OkEndsTheDrain | bin/debugserver/server.cc:302-327 | `OK` is posted by exactly the vStopped that empties a drain; a vStopped posts nothing exactly if nothing is pending |
| Notifications.PendingHasTimer | bin/debugserver/server.cc:264-281 | in every run a pending notification has at least one armed timer |
| Notifications.PendingHasOneTimerIff | bin/debugserver/server.cc:264-281 | in every run it has exactly one if and only if no timer for its address was armed when it became pending |
| Notifications.PendingHasOneTimer | bin/debugserver/server.cc:264-281 | in particular exactly one if no two notifications ever had the same address |
| Notifications.ReusedAddressArmsTwice | bin/debugserver/server.cc:264-281 | a run in which a reused address leaves two timers armed for one notification |
| Notifications.WireInOrder | bin/debugserver/server.cc:207-237 | in every run packets reach the wire in the order they were posted, and the `+` of a command is there before any answer to it, the deferred reply to vRun included |
| Notifications.AnsweredOnce | bin/debugserver/server.cc:283-344 | in every run no command is answered twice, a vRun by way of its first thread included |
| Notifications.AckOvertakes | lib/inferior-control/io-loop.cc:72-89 | a run in which an acknowledgment overtakes an earlier packet: packets and acknowledgments together are not in posting order |
| Notifications.ReplyCount | bin/debugserver/server.cc:283-344 | in every run the `$` packets posted are the replies to commands, the deferred replies, and one for each effective vStopped |
| Notifications.RepliesAreTheirs | bin/debugserver/server.cc:302-344 | in every run each `$` packet carries what its command had to say: the packet numbered k has the reply of the step that read packet k, or the text of the first thread after that vRun, or `OK` for a vStopped |
| Notifications.EveryReplyIsPosted | bin/debugserver/server.cc:329-344 | and conversely every command that has a reply gets it posted, under its own number |
| Notifications.AnnouncedTimes | bin/debugserver/server.cc:243-281 | in every run an event is announced once when it becomes pending and once more for each timer that goes off for it while it is pending; an event that never was pending is never announced |
| Notifications.AllIsWritten | lib/inferior-control/io-loop.cc:72-89 | after any run, enough turns of the two loops leave exactly the posted packets on the wire, in order |
| Notifications.StepPosts | bin/debugserver/server.cc:239-344 | the packet each kind of step posts, text and cause, or none |
| Notifications.StepWaits | bin/debugserver/server.cc:250-327 | the pending notification, the queue and the timers after each kind of step |
| Notifications.StepReads | bin/debugserver/server.cc:283-300 | each packet read is numbered and acknowledged at once; which vRun waits |
| Notifications.StepMoves | bin/debugserver/server.cc:215-237 | a turn of the message loop or of the I/O thread moves its oldest item on and nothing else does |
| RspServers.RspServer.PostWriteTask | bin/debugserver/server.cc:215-237 | posts one packet; only texts that pass the size check get here |
| RspServers.RspServer.PostPendingNotificationWriteTask | bin/debugserver/server.cc:243-281 | posts the pending notification and arms one timer, as the protocol step does |
| RspServers.RspServer.TryPostNextNotification | bin/debugserver/server.cc:250-262 | the oldest queued event becomes pending and is announced, exactly when nothing is pending and something is queued |
| RspServers.RspServer.Enqueue | bin/debugserver/server.cc:103-114 | queues an event and tries to announce it, as the protocol step does |
| RspServers.RspServer.QueueNotification | bin/debugserver/server.cc:103-119 | one more protocol step of a run; all queued and posted texts still fit the buffer |
| RspServers.RspServer.OnTimer | bin/debugserver/server.cc:264-281 | posts the pending announcement once more and keeps the timer armed exactly if the notification it was set for is still pending; otherwise posts nothing and the timer is gone |
| RspServers.RspServer.ResendRule | bin/debugserver/server.cc:243-281 | in every reachable state each event has been announced once, plus once for each timer that went off for it |
| RspServers.RspServer.SendAck | bin/debugserver/server.cc:207-213 | hands the byte `+` or `-` straight to the I/O thread |
| RspServers.RspServer.RunWriteTask | bin/debugserver/server.cc:219-236 | the bytes put in the out buffer and handed on are the frame of the oldest posted packet |
| RspServers.RspServer.RunIoTask | lib/inferior-control/io-loop.cc:72-89 | the oldest bytes go to the wire; the wire stays the concatenation of whole frames |
| RspServers.RspServer.OnStopAck | bin/debugserver/server.cc:302-327 | one vStopped, after its `+`: drains the oldest queued event, or ends the drain with `OK`, or posts nothing |
| RspServers.RspServer.RejectPacket | bin/debugserver/server.cc:289-297 | a packet that fails verification is answered with `-` and nothing else |
| RspServers.RspServer.Answer | bin/debugserver/server.cc:329-344 | the callback: posts the reply text, the empty text if unsupported, nothing if deferred, under the number of the command; aborts exactly if a check has failed or the reply does not fit |
| RspServers.RspServer.Obey | bin/debugserver/server.cc:293-344 | a command from `+` to reply: aborts exactly for the packets and states of `TripsOn` (a check in the handler fails) and `RepliesTooLong` (the reply does not fit); otherwise all invariants hold again, the reply and the inferior are what `Rule` says of the state before and the packet, and that reply is what is posted |
| RspServers.RspServer.OnBytesRead | bin/debugserver/server.cc:283-344 | each input is one protocol step of the run, chosen by what VerifyPacket says of it; a check fails exactly for a verified command of that kind; otherwise the byte sent back, the reply posted and the inferior after it are those of the packet by `Rule` |
| StopTexts.ReplyForIsSent | bin/debugserver/server.cc:357-465 | every stop reply the server builds survives framing and verification |
| StopTexts.BuildReply | bin/debugserver/server.cc:357-465 | the stop reply text of each kind of report; it is at most 300 characters, so it always fits |
| StopTexts.ExceptionText | bin/debugserver/server.cc:357-465 | what the peer is told for each kind of exception, character by character: `W`, `w00;`, `T05thread:…;create:;` or a stop, as the answer to the vRun that waits exactly for the first thread and as a notification otherwise |
| StopTexts.StopText | bin/debugserver/server.cc:420-465 | the text of a stop: its signal, registers 6, 7 and 16 from the least significant byte on, and the thread |
| StopTexts.BareStopText | bin/debugserver/server.cc:420-465 | the same when the registers cannot be read |
| StopTexts.ProcessExitText | bin/debugserver/server.cc:407-418 | `W` and the exit code in two digits |
| StopTexts.ThreadExitText | bin/debugserver/server.cc:387-405 | `w00;` and the thread |
| StopTexts.ThreadStartText | bin/debugserver/server.cc:357-385 | signal 5, the thread and the reason |
| StopTexts.SilentIs | bin/debugserver/server.cc:434-439 | the peer is told nothing exactly for an unknown exception, a failed check or a stop without a signal |
| RspServers.ItemBytesIs | bin/debugserver/server.cc:207-237 | a packet read is answered with `+` or `-`; an announcement begins with `%`, any other packet with `$`; then the payload, `#` and the byte sum |
| RspServers.RspServer.Announce | bin/debugserver/server.cc:374-385 | the first thread of a run answers the vRun that is waiting, of which there is one; every other report becomes a notification |
| RspServers.RspServer.ReadRegisters | bin/debugserver/server.cc:442-456 | the registers shown are those the kernel holds, if they can be read, and then they are cached |
| RspServers.RspServer.OnException | bin/debugserver/server.cc:357-465 | nothing happens for a stale key; otherwise exactly one report is sent, with the text of that report, unless the exception is unknown or has no signal; the state a reported stop leaves its thread in; a check fails exactly if the two requests for a stale thread list disagree, the thread is not filed and cannot be opened, or it starts and is filed as no longer new; otherwise all invariants are kept |
| RspServers.RspServer.ShowStopped | bin/debugserver/server.cc:426-465 | after a stop, `g` for that thread is right exactly if the registers were read for the report, or nothing changed since they were cached, or the way through a stepping thread refreshed them |
| RspServers.RspServer.ContinueStopped | bin/debugserver/cmd-handler.cc:261-339 | after a stop, `C` with the signal it stopped with is answered with OK and that thread runs, if the kernel resumes it |
| RspServers.ContinuedBeforeItsStart | lib/inferior-control/process.cc:701-709 | a run from the constructors on in which that check fails: attach, choose a listed thread, continue it, then dispatch its start |
| RspServers.ListedAndCurrent | bin/debugserver/cmd-handler.cc:447-538 | the first half of that run: a thread that is listed after vAttach and chosen is new in the thread map |
| RspServers.RspServer.Take | bin/debugserver/server.cc:283-465 | one input of any kind keeps every invariant and is the protocol steps that belong to it (`Matches`), or a check fails, which happens exactly for the inputs and states of `FailsOn` |
| RspServers.RspServer.Serve | bin/debugserver/server.cc:50-101 | any sequence of inputs in any order keeps every invariant until a check trips; each input is the protocol steps that belong to it, and one is passed over exactly if it cannot happen yet |
| RspServers.RspServer.ReplyRule | bin/debugserver/server.cc:283-385 | in every reachable state: `$` answers + started runs = commands other than vStopped + first-thread replies + effective vStoppeds; first-thread replies never outnumber started runs |
| RspServers.RspServer.WireRule | bin/debugserver/server.cc:207-237 | in every reachable state the bytes written are whole frames and acknowledgments, in the order of the protocol, every answer behind the `+` of its command |
| RspServers.RspServer.AnswersRule | bin/debugserver/server.cc:215-237 | in every reachable state no command has two answers, and every stop reply sent as a packet verifies |
| RspServers.RspServer.ReplyTextRule | bin/debugserver/server.cc:302-344 | in every reachable state each `$` packet says what the command it answers, or the first thread of that run, had to say |
| CommandHandlers.CommandHandler.CurrentThread | lib/inferior-control/server.cc:30-35 | a thread that is still in the thread map, or null |
| CommandHandlers.CommandHandler.HandleCommand | bin/debugserver/cmd-handler.cc:113-172 | the reply and the inferior afterwards are those of `Rule`, which says for every packet that fails no check what is answered and what changes, down to each thread, as literal texts and states; keeps the inferior in order; returns without a reply exactly if it started a program; fails a check exactly for the packets and states of `TripsOn`, and its reply is too long exactly for those of `RepliesTooLong`: a long `m`, a listing of many threads, a `qXfer` behind the end |
| CommandHandlers.CommandHandler.HandleAccess | bin/debugserver/cmd-handler.cc:113-172 | the same for the commands that continue, read or write |
| CommandRules.ContinueCommand | bin/debugserver/cmd-handler.cc:1128-1219 | from the text to the effect: `vCont;c` is answered with OK and every thread that was new or stopped runs, if the kernel grants what is asked |
| CommandRules.StepCommand | bin/debugserver/cmd-handler.cc:1128-1219 | from the text to the effect: `vCont;s` is refused exactly if there is a new thread; otherwise every thread that was stopped is stepping |
| CommandRules.ContinuedIs | bin/debugserver/cmd-handler.cc:188-259 | `c` without an address resumes; with one it works exactly for a new thread, or a stopped one whose registers can be read, whose registers can be written and that can be resumed, and the thread goes on from there |
| CommandRules.LookBeforeRound | bin/debugserver/cmd-handler.cc:1128-1158 | looking at the thread list for a pick-one entry before the round makes no difference to it |
| CommandHandlers.CommandHandler.Handle_c | bin/debugserver/cmd-handler.cc:188-259 | the exact effect on the current thread and the reply; no other thread changes; trips a check exactly with no current thread while attached (with an address: if live) |
| CommandHandlers.CommandHandler.Handle_C | bin/debugserver/cmd-handler.cc:261-339 | OK exactly for the signal of the current thread and no `;`: an address is always refused; what changes and what does not |
| CommandHandlers.CommandHandler.Handle_D | bin/debugserver/cmd-handler.cc:341-380 | OK exactly when attached and the pid is absent or right, and then the process is let go |
| CommandHandlers.CommandHandler.Handle_g | bin/debugserver/cmd-handler.cc:382-412 | the cached block of the current thread, zeros without one: the kernel is not asked; the reply always fits |
| RegisterTexts.PrintsRightAfterIff | bin/debugserver/cmd-handler.cc:382-412 | for every thread and event: `g` shows the registers as they are exactly under a condition on the event, the cache and the register calls (an exception of a thread that does not step: exactly if nothing changed) |
| RegisterTexts.StartedThreadPrintsZeros | bin/debugserver/cmd-handler.cc:382-412 | after a thread start `g` shows zeros, which is right exactly if the registers are zero |
| RegisterTexts.PrintsRightAfterStopIff | bin/debugserver/server.cc:447-462 | after a stop that is reported: right if the registers were read, otherwise exactly as without the report |
| CommandHandlers.CommandHandler.Handle_G | bin/debugserver/cmd-handler.cc:414-445 | decodes the packet and writes the block to the current thread only; OK exactly if it spells a block and that was written |
| RegisterTexts.TextReadsBack | lib/inferior-control/registers-amd64.cc:41-54 | every register block can be read back from the text of g |
| RegisterTexts.AcceptedTextIsShown | lib/inferior-control/registers.cc:77-90 | a text that G accepts is what g shows then, in lower case |
| RegisterTexts.NoThreadReadsAsZeros | lib/inferior-control/registers-amd64.cc:183-186 | the text without a thread is that of a block of zeros |
| RegisterTexts.BlockTextIs | lib/inferior-control/registers-amd64.cc:41-54 | 288 digits, sixteen for each of the 18 registers, the bytes of each from the least significant on |
| Prelude.LeastFirst | lib/inferior-control/registers-amd64.cc:41-54 | the least significant byte of a register comes first |
| CommandHandlers.CommandHandler.Handle_H | bin/debugserver/cmd-handler.cc:447-538 | OK exactly if the process is not live or has the thread asked for, PERM otherwise; OK leaves a live process with that thread current and a process that is not live with none; a check fails exactly if a look at the stale thread list is one that miscounts |
| CommandHandlers.CommandHandler.Handle_m | bin/debugserver/cmd-handler.cc:540-578 | the reply decodes to the bytes in memory; every other reply, exactly; too long exactly if attached, both numbers parse, memory can be read and the length is at least 2046 |
| CommandHandlers.CommandHandler.Handle_M | bin/debugserver/cmd-handler.cc:580-645 | OK exactly if attached, the packet spells a write, and that is empty or granted, and then that write is the one made; INVAL exactly if attached and it does not |
| QueryTexts.NumbersReadBack | bin/debugserver/cmd-handler.cc:552-569 | two numbers with a comma between them are read back |
| QueryTexts.WriteReadsBack | bin/debugserver/cmd-handler.cc:595-634 | every write of bytes to an address can be spelled, and is understood as that |
| QueryTexts.WriteIff | bin/debugserver/cmd-handler.cc:595-634 | a packet spells a write exactly if it is two numbers, one colon, and as many bytes as the second number says |
| QueryTexts.NumbersIff | bin/debugserver/cmd-handler.cc:552-569 | two numbers are understood exactly if there are two parts between commas and both are numbers |
| QueryTexts.TokensAre | bin/debugserver/cmd-handler.cc:552-569 | the parts: separators in front are skipped, and empty parts dropped |
| QueryTexts.MemoryTextIs | bin/debugserver/cmd-handler.cc:565-578 | digits 2i and 2i+1 of the reply are the byte at address + i |
| CommandText.ParseUint64Iff | bin/debugserver/cmd-handler.cc:552-569 | a number is one or more hexadecimal digits with a value that fits |
| CommandHandlers.CommandHandler.Handle_T | bin/debugserver/cmd-handler.cc:689-717 | OK exactly for a thread that is in the map and neither gone nor exiting; a check fails exactly if the look at the stale thread list is one that miscounts |
| CommandHandlers.CommandHandler.HandleQueryThreadInfo | bin/debugserver/cmd-handler.cc:924-990 | a first query lists exactly the live threads, each once, a second one ends the listing, out of turn both are refused; too long exactly if the ids have 4092 digits or more, counting one more for each |
| QueryTexts.ListFitsIff | bin/debugserver/cmd-handler.cc:956-990 | a listing fits exactly if digits and ids add up to less than 4092, in whatever order it names them |
| QueryTexts.ThreadCountBounds | bin/debugserver/cmd-handler.cc:956-990 | so up to 240 threads always fit and 2046 never do |
| CommandHandlers.CommandHandler.HandleQueryCurrentThreadId | bin/debugserver/cmd-handler.cc:806-838 | names the current thread, else some thread of a live process; the reply always fits |
| CommandHandlers.CommandHandler.HandleQueryRcmd | bin/debugserver/cmd-handler.cc:840-896 | a monitor command is always answered with a short text |
| QueryTexts.MonitorReplyIsShort | bin/debugserver/cmd-handler.cc:840-896 | the reply to any words is at most 500 characters |
| QueryTexts.MonitorReplies | bin/debugserver/cmd-handler.cc:840-896 | the reply to each command, in full |
| QueryTexts.MonitorRefuses | bin/debugserver/cmd-handler.cc:840-896 | too many or too few words, or another parameter, are refused |
| QueryTexts.TrimIs | bin/debugserver/cmd-handler.cc:840-896 | the words are freed of white space at both ends and of nothing else |
| CommandHandlers.CommandHandler.HandleQueryXfer | bin/debugserver/cmd-handler.cc:992-1080 | INVAL exactly for bad numbers or an offset above the array; otherwise the length of the reply, which is too long exactly for an offset behind the last entry and a length of at least 4091 |
| QueryTexts.AuxvFitsIff | bin/debugserver/cmd-handler.cc:1059-1071 | the difference of sizes wraps around behind the end: fits exactly up to the end or for a small length |
| QueryTexts.AuxvIs | bin/debugserver/cmd-handler.cc:1035-1071 | the length of the reply before and behind the end of two or six entries of 16 bytes |
| CommandHandlers.CommandHandler.Handle_q | bin/debugserver/cmd-handler.cc:647-678 | exactly which queries are supported, the fixed replies, exactly which replies are too long, and exactly when a check fails |
| CommandHandlers.CommandHandler.HandleGeneral | bin/debugserver/cmd-handler.cc:147-161 | splits q and Q packets; a packet of the one letter fails a check, otherwise exactly a query that does |
| CommandHandlers.CommandHandler.Handle_Q | bin/debugserver/cmd-handler.cc:906-922 | only QNonStop:1 is accepted |
| CommandHandlers.CommandHandler.Handle_vAttach | bin/debugserver/cmd-handler.cc:1082-1126 | OK exactly if the pid is well formed, nothing is live and each request is granted, and then the thread list is stale; fails the checks of Initialize exactly after a failed run |
| CommandHandlers.CommandHandler.Handle_vRun | bin/debugserver/cmd-handler.cc:1262-1316 | deferred exactly if nothing is live and each step of the launch works; PERM otherwise; fails a check exactly if nothing is live and either a failed run left something over or the id of the new process cannot be had |
| CommandHandlers.CommandHandler.Handle_vKill | bin/debugserver/cmd-handler.cc:1221-1260 | OK exactly if live, the pid is right and the kernel agrees; then the process is gone |
| CommandHandlers.CommandHandler.ResolvePickOnes | bin/debugserver/cmd-handler.cc:1145-1158 | the check on pick-one entries, exactly; the list itself does not change |
| CommandHandlers.CommandHandler.Handle_vCont | bin/debugserver/cmd-handler.cc:1128-1219 | fails a check exactly if an entry has process 0, or the list is valid and the process not live, or a pick-one entry names another process, or a look at the stale thread list is one that miscounts; otherwise its whole effect is one round over the thread table as RunActions runs it, pick-one entries or not |
| Continuation.ActOn | bin/debugserver/cmd-handler.cc:1188-1212 | what one thread undergoes, with the fall-through |
| Continuation.FirstPass | bin/debugserver/cmd-handler.cc:1163-1182 | false exactly if some live thread that has not started is asked to step |
| Continuation.SecondPass | bin/debugserver/cmd-handler.cc:1186-1214 | each live thread undergoes its own action, gone ones none |
| Continuation.RunActions | bin/debugserver/cmd-handler.cc:1160-1214 | the reply and the whole thread table after the round, with what each pass finds when it looks at the list; exactly when the check on the list fails |
| Continuation.AllOrNothingIff | bin/debugserver/cmd-handler.cc:1160-1214 | for every round: if some thread cannot do what it is asked to no thread changes, except exactly where a stale list cannot be read for the first pass, can for the second, and holds both a thread to step and one that is continued |
| Continuation.AllOrNothingUnlessReplaced | bin/debugserver/cmd-handler.cc:1160-1214 | so all or nothing holds for a fresh list, one the first pass can read, and one the second cannot |
| Continuation.FirstContinue | bin/debugserver/cmd-handler.cc:1160-1214 | the first vCont after vAttach, with a list that can be read: refused exactly if some thread is to step, and which threads run |
| Continuation.ReplacedListRuns | bin/debugserver/cmd-handler.cc:1160-1214 | a round in which one thread runs although another cannot do what it is asked to |
| Continuation.EndsWhereSent | bin/debugserver/cmd-handler.cc:1188-1212 | if the kernel is willing each live thread ends where its action sends it |
| Continuation.RoundEndsWhereSent | bin/debugserver/cmd-handler.cc:1160-1214 | so in every round that is agreed to each live thread of the table the second pass sees ends where its action sends it, and no thread comes or goes |
| Continuation.ContinueStepsIff | bin/debugserver/cmd-handler.cc:1193-1208 | a continue turns into a step exactly when a stopped thread could not be resumed but could be stepped |
| Continuation.ContinueNeverAlsoSteps | bin/debugserver/cmd-handler.cc:1193-1208 | a continue that works never also steps |
| Continuation.ContinueAll | bin/debugserver/cmd-handler.cc:1160-1214 | a round made from the text `c`: agreed to, and every thread that was new or stopped runs |
| Continuation.StepAll | bin/debugserver/cmd-handler.cc:1160-1214 | a round made from `s`: agreed to exactly if no thread is new, and then every stopped thread is stepping |
| Continuation.ContinueOne | bin/debugserver/cmd-handler.cc:1160-1214 | a round made from `c:` and one thread: no other thread changes |
| Processes.Process.SetState | lib/inferior-control/process.cc:432-449 | only along the allowed edges |
| Processes.LifeCycle | lib/inferior-control/process.cc:432-449 | the edges: new to starting or running, starting to running, anything to gone, gone to new |
| Processes.SetupIs | lib/inferior-control/process.cc:173-247 | which launches are ready, and which fail the check on the id |
| Processes.ReportIs | lib/inferior-control/process.cc:677-732 | the report of each kind of exception |
| Processes.OpenedIs | lib/inferior-control/process.cc:555-586 | a listed thread is filed with the registers that go with it |
| Processes.FoundIs | lib/inferior-control/process.cc:495-529 | the thread looked for is in the table after the search exactly if it is not missing, with the value stated |
| Processes.AfterExceptionIs | lib/inferior-control/process.cc:699-727 | a thread remembers its exception; it is stopped then, or gone and closed if it was exiting |
| Processes.Process.Initialize | lib/inferior-control/process.cc:173-247 | the entry checks, how far the launch gets, when a launchpad is left, and that the check on the id fails exactly if the id cannot be had |
| Processes.Process.InitializeRunning | lib/inferior-control/process.cc:249-274 | prepares an attach to a running program |
| Processes.Process.Attach | lib/inferior-control/process.cc:276-330 | succeeds exactly if not attached, the handle and the binding are granted and a key is left, and then the thread list of a running program is stale; otherwise nothing is attached |
| Processes.Process.UnbindExceptionPort | lib/inferior-control/process.cc:301-306 | the key is given up and its callback gone |
| Processes.Process.RawDetach | lib/inferior-control/process.cc:332-343 | the two checks on entry; leaves neither handle nor key |
| Processes.Process.Detach | lib/inferior-control/process.cc:345-353 | false exactly if not attached; otherwise the process is gone and cleared |
| Processes.Process.Start | lib/inferior-control/process.cc:355-382 | the checks on entry; the launchpad is used up either way |
| Processes.Process.Kill | lib/inferior-control/process.cc:384-430 | a live process goes exactly if the kernel agrees; the checks inside hold |
| Processes.Process.Clear | lib/inferior-control/process.cc:451-473 | nothing is left of the process; requires that it is detached |
| Processes.Process.RefreshAllThreads | lib/inferior-control/process.cc:540-589 | on success exactly the listed threads, all new; otherwise nothing changes; the check fails exactly if the two requests disagree on the number of threads |
| Processes.Process.EnsureThreadMapFresh | lib/inferior-control/process.cc:489-493 | reads the list exactly if it is stale |
| Processes.Process.PickOneThread | lib/inferior-control/process.cc:531-538 | some thread of the map, null exactly if there is none |
| Processes.Process.FindThreadById | lib/inferior-control/process.cc:495-529 | null exactly for id 0, an unknown thread that cannot be opened, or a gone one; what is added to the map, and the value of the thread found |
| Processes.Process.OnException | lib/inferior-control/process.cc:677-732 | which report, which state, what becomes of the thread, and one first-thread report per start at most; a check fails exactly if the requests for a stale list disagree, the thread is not filed and cannot be opened, or it starts, the map is not about to be replaced, and it is no longer new there |
| Processes.RaiseIn | lib/inferior-control/process.cc:699-727 | one thread takes the exception, an exiting one is let go; the others are untouched |
| Processes.LiveIds | lib/inferior-control/process.cc:598-606 | exactly the threads that are not gone, each once |
| RegisterBlocks.SetTF | lib/inferior-control/registers-amd64.cc:132-139 | sets or clears bit 8 and keeps every other bit |
| RegisterBlocks.TrapIs | lib/inferior-control/registers-amd64.cc:132-139 | bit 8 of register 17 is as wanted, and nothing else differs |
| Threads.Thread.GetRegister | lib/inferior-control/registers-amd64.cc:95-111 | range and size checks; the cached value |
| Threads.Thread.SetRegister | lib/inferior-control/registers-amd64.cc:113-130 | range and size checks; one register of the cache |
| Threads.Thread.RefreshGeneralRegisters | lib/inferior-control/registers.cc:25-61 | a new thread reads as zeros, another as the kernel has it or not at all |
| Threads.Thread.WriteGeneralRegisters | lib/inferior-control/registers.cc:29-75 | the cache reaches the kernel or nothing happens |
| Threads.Thread.SetTrapFlag | lib/inferior-control/breakpoint-amd64.cc:81-98 | read, change one bit, write back, with each way to fail |
| Threads.Thread.InsertSingleStepBreakpoint | lib/inferior-control/breakpoint.cc:96-114 | refused with a breakpoint in place; the slot is filled only if the flag was set |
| Threads.Thread.RemoveSingleStepBreakpoint | lib/inferior-control/breakpoint.cc:116-124 | the slot is emptied whether or not the flag could be cleared |
| Threads.Thread.Raise | lib/inferior-control/thread.cc:109-131 | stops the thread and takes out the breakpoint of a stepping one; the check on it is discharged |
| Threads.ExceptionStops | lib/inferior-control/thread.cc:109-154 | after an exception the thread is stopped and remembers it, so a resume works then |
| Threads.Thread.DoResume | lib/inferior-control/thread.cc:133-154 | only a stopped or new thread, and only if the kernel agrees |
| Threads.Thread.DoResumeForExit | lib/inferior-control/thread.cc:156-192 | the thread is gone and its handle closed |
| Threads.Thread.DoStep | lib/inferior-control/thread.cc:194-225 | refresh, insert, resume and the undo of each |
| Threads.RunKeepsPaired | lib/inferior-control/thread.cc:109-225 | in every run, whatever fails: a thread that is not gone has a single-step breakpoint exactly when it is stepping |
| Threads.StepRefusedOnlyByKernel | lib/inferior-control/thread.cc:194-225 | in every run a step of a stopped thread is never refused for a leftover breakpoint |
| Threads.RemoveStepAlwaysReportsSuccess | lib/inferior-control/breakpoint.cc:116-124 | removal reports success although the flag stays set exactly when a register call fails |
| Threads.OnlyTheTrapFlag | lib/inferior-control/breakpoint-amd64.cc:81-128 | insert and remove change that bit of the registers only |
| Threads.RunKeepsTrap | lib/inferior-control/breakpoint-amd64.cc:81-128 | in every run in which register calls work and nothing else touches the flag: set exactly while stepping |
| Threads.PutKeepsTrapIff | bin/debugserver/cmd-handler.cc:414-445 | a G packet keeps that exactly if it writes the flag that is there, or is not written |
| Threads.SetPcKeepsOthersIff | bin/debugserver/cmd-handler.cc:218-230 | `c` with an address changes the pc only, with working register calls, exactly if the thread is not new or all its other registers are zero |
| Threads.UpToDateIff | lib/inferior-control/registers.cc:41-61 | for every event: the cached block is the one the kernel holds exactly under the stated condition |
| ExceptionPorts.ExceptionPort.DoBind | lib/inferior-control/exception-port.cc:104-138 | the next key, or 0 at the 64-bit limit or on a refusal |
| ExceptionPorts.ExceptionPort.DoUnbind | lib/inferior-control/exception-port.cc:140-154 | removes exactly that key |
| ExceptionPorts.ExceptionPort.Dispatch | lib/inferior-control/exception-port.cc:192-203 | the callback bound now, if any |
| ExceptionPorts.KeysNeverReused | lib/inferior-control/exception-port.cc:104-138 | in every run keys are strictly increasing, never 0 and never reused, at the limit too |
| ExceptionPorts.NoStaleDispatch | lib/inferior-control/exception-port.cc:192-203 | in every run a delayed exception runs the callback it was raised for or none |
| ExceptionPorts.LimitIsFinal | lib/inferior-control/exception-port.cc:104-120 | after the last key nothing can be bound |
| ExceptionPorts.PortIs | lib/inferior-control/exception-port.cc:104-154 | binding, unbinding and looking up in terms of the table and the counter, at the 64-bit limit too |
| ExceptionPorts.DeliversIff | lib/inferior-control/exception-port.cc:192-203 | a delayed exception runs the callback of its key exactly if that is still bound, and changes nothing else |
| PacketCodec.EscapedIffOddRun | bin/debugserver/util.cc:82-113 | the scanner's notion of escaped is: after an odd run of escape characters |
| PacketCodec.FindUnescapedChar | bin/debugserver/util.cc:82-113 | the first unescaped occurrence, or that there is none |
| PacketCodec.VerifyPacket | bin/debugserver/util.cc:117-186 | computes Verify, whose meaning VerifyIff states |
| PacketCodec.VerifyIff | bin/debugserver/util.cc:117-186 | accepts s with payload d exactly if s is junk, `$`, d, `#` and two digits that decode to the sum of all byte values of d modulo 256, where the scans for `$` and `#` stop there |
| PacketCodec.ChecksumIsSum | bin/debugserver/util.cc:160-175 | the sum kept in one byte is the sum of all byte values, reduced once |
| PacketCodec.ChecksumAdds | bin/debugserver/util.cc:160-175 | it is 0 for nothing, the code of a character for that character, and adds up over concatenation |
| PacketCodec.FrameIs | bin/debugserver/server.cc:219-236 | a frame character by character: `%` or `$`, the payload, `#`, the byte sum in two lower-case digits |
| PacketCodec.FrameOfOk | bin/debugserver/server.cc:219-236 | the reply `OK` goes out as `$OK#9a`, which is accepted |
| PacketCodec.FillOutBuffer | bin/debugserver/server.cc:219-236 | stays in the buffer and leaves the frame of the payload in it |
| PacketCodec.VerifyOfFrame | bin/debugserver/server.cc:219-236 | verifying undoes `$` framing for exactly the payloads without an unescaped `#` that do not end in an escape |
| PacketCodec.SameFrame | bin/debugserver/util.cc:117-186 | a packet has one reading only |
| ThreadIds.ParseThreadId | bin/debugserver/util.cc:30-73 | computes ThreadIdOf, whose meaning ThreadIdIff states |
| ThreadIds.ThreadIdIff | bin/debugserver/util.cc:30-73 | the grammar of thread ids, both ways: `p`, a number and a dot with another or nothing, or a number alone |
| ThreadIds.ParseInt64Iff | bin/debugserver/util.cc:30-73 | a number is an optional sign and one or more digits, with a value that fits 64 bits |
| ThreadIds.HexNumberIs | bin/debugserver/util.cc:30-73 | the value of digits, in base 16 |
| ThreadIds.NumberToHexIs | bin/debugserver/util.cc:75-80 | the digits of a value, in base 16 and upper case |
| ThreadIds.ParseOfEncode | bin/debugserver/util.cc:30-80 | parsing inverts encoding exactly for ids below 2^63 |
| ThreadIds.ParseOfNumber | bin/debugserver/util.cc:75-80 | a printed number reads back exactly if it fits the signed type |
| ThreadActions.ReadAction | bin/debugserver/thread-action-list.cc:91-136 | one turn of the parsing loop; refused exactly for an entry with process 0 |
| ThreadActions.ThreadActionList.constructor | bin/debugserver/thread-action-list.cc:78-144 | valid exactly if the text is one that ParseIff describes, with its default and its entries in order; the check on pids fails exactly for the texts of TripsIff |
| ThreadActions.ThreadActionList.GetAction | bin/debugserver/thread-action-list.cc:146-156 | the action of the first covering entry, else the default |
| ThreadActions.ActionFor | bin/debugserver/thread-action-list.cc:146-156 | first covering entry wins; a tid of 0 covers nothing |
| ThreadActions.ParseIff | bin/debugserver/thread-action-list.cc:48-144 | accepts exactly the `;`-separated lists of `c` and `s`, alone or with `:` and a thread id, with at most one default, no number below -1, no process 0, no single thread of all processes, and one optional trailing `;`; `c` means continue and `s` step; recovers their entries, in order |
| ThreadActions.TripsIff | bin/debugserver/thread-action-list.cc:78-144 | the check on pids fails exactly on a text that reads well up to an entry for process 0 |
| ThreadActions.PlainActions | bin/debugserver/thread-action-list.cc:48-144 | `c` alone continues and `s` alone steps every thread |
| ThreadActions.ActionForOne | bin/debugserver/thread-action-list.cc:48-144 | `c:` or `s:` and a thread id as the server writes it is for that thread |
| CommandText.BuildArgvFor_vRun | bin/debugserver/cmd-handler.cc:82-104 | the decoded pieces between semicolons |
| CommandText.ArgvRoundTrip | bin/debugserver/cmd-handler.cc:82-104 | recovers every argv from its hex parts, except that an empty last argument is lost |
| CommandText.ExtractParameters | bin/debugserver/util.cc:188-209 | splits at the first colon |
| CommandText.BuildThreadInfo | bin/debugserver/cmd-handler.cc:956-990 | computes the buffer size exactly and fills it |
| CommandText.ThreadInfoReadsBack | bin/debugserver/cmd-handler.cc:956-990 | the listing determines the ids |
| Hex.DecodeOfEncode | lib/debugger-utils/util.cc:20-107 | decoding inverts encoding for all bytes |
| Hex.EncodeOfDecode | lib/debugger-utils/util.cc:20-107 | encoding inverts decoding up to the case of the digits |
| Hex.EncodeByteArrayString | lib/debugger-utils/util.cc:68-81 | two lower-case digits per byte |
| Hex.DecodeByteArrayString | lib/debugger-utils/util.cc:88-107 | the bytes, or nothing for text that is not pairs of digits |
| Hex.JoinStrings | lib/debugger-utils/util.cc:136-154 | in bounds; fills an exactly sized buffer with the joined text |
| Hex.DigitsAre | lib/debugger-utils/util.cc:20-46 | the sixteen digits: letters are read in either case and written in lower case |
| Hex.PairIs | lib/debugger-utils/util.cc:50-66 | two digits are a byte, the high half first |
| Hex.PairAt | lib/debugger-utils/util.cc:68-81 | byte i of an array is written at 2i |
| Prelude.JoinIs | lib/debugger-utils/util.cc:136-154 | parts with the separator between them and nowhere else |
| StopReply.StopReplyPacket.AddRegisterValue | bin/debugserver/stop-reply-packet.cc:45-62 | appends one register text and changes nothing else |
| StopReply.StopReplyPacket.SetThreadId | bin/debugserver/stop-reply-packet.cc:40-43 | records the encoded id and changes nothing else |
| StopReply.StopReplyPacket.SetStopReason | bin/debugserver/stop-reply-packet.cc:64-67 | records the reason and changes nothing else |
| StopReply.StopReplyPacket.Build | bin/debugserver/stop-reply-packet.cc:69-131 | the text of the packet |
| StopReply.TypesAre | bin/debugserver/stop-reply-packet.cc:69-98 | the letter of each type, `S` instead of `T` exactly without parameters, and the signal, 5 with a reason |
| StopReply.StopReplyIsCarried | bin/debugserver/stop-reply-packet.cc:69-131 | every reply built from hex registers, encoded ids and a plain reason has no `#`, `$` or `}`, so it survives framing and verification |
| StopReply.SignalReplyReadsBack | bin/debugserver/stop-reply-packet.cc:69-131 | the parameters of a reply to a signal can be read back from its text |
| StopReply.SmallReplyFits | bin/debugserver/server.cc:215-218 | every reply the server builds is far below the buffer size |
| Breakpoints.SoftwareBreakpoint.Insert | lib/inferior-control/breakpoint-amd64.cc:23-53 | all or nothing: the byte is replaced and remembered, or neither |
| Breakpoints.SoftwareBreakpoint.Remove | lib/inferior-control/breakpoint-amd64.cc:55-71 | all or nothing: the byte is put back and forgotten, or neither |
| Breakpoints.ProcessBreakpointSet.InsertSoftwareBreakpoint | lib/inferior-control/breakpoint.cc:40-57 | one breakpoint more, or nothing changed |
| Breakpoints.ProcessBreakpointSet.RemoveSoftwareBreakpoint | lib/inferior-control/breakpoint.cc:59-74 | one breakpoint less, or nothing changed |
| Breakpoints.InsertAndRemove | lib/inferior-control/breakpoint.cc:40-74 | an insert works exactly on a free address of accessible memory, and leaves 0xCC there and the old byte remembered; a remove puts it back |
| Breakpoints.BreakpointsAreInvisible | lib/inferior-control/breakpoint.cc:40-74 | over any run of inserts, removes and other writes that miss the breakpoints, successful or not: memory under the breakpoints is as if there were none, and each one is an int3 |
| Breakpoints.AllRemovedRestores | lib/inferior-control/breakpoint.cc:40-74 | removing all, in any order, leaves exactly what was written to memory |
| Breakpoints.WriteSurvivesIff | lib/inferior-control/process.cc:612-614 | a write to an address outlives the breakpoint there exactly if there is none or the byte is the old one |
| Breakpoints.ReadSeesIff | lib/inferior-control/process.cc:608-610 | a read sees the program's byte exactly where no breakpoint is, or one that replaced an int3 |
| Symtab.Truncated | lib/debugger-utils/elf-symtab.cc:94-94 | the conversion of the difference to int |
| Symtab.CompareIs | lib/debugger-utils/elf-symtab.cc:87-95 | 0 exactly if one symbol starts inside the other, with ends that wrap around; otherwise the low 32 bits of the difference, signed |
| Symtab.UsableKeeps | lib/debugger-utils/elf-symtab.cc:64-85 | exactly the entries with a good name offset are kept, each as often as it was there |
| Symtab.SymbolTable.Populate | lib/debugger-utils/elf-symtab.cc:64-85 | keeps the entries with a good name offset, in order |
| Symtab.SymbolTable.FindSymbol | lib/debugger-utils/elf-symtab.cc:101-110 | the halving search: a symbol that compares equal, and none only if there is none, provided the key parts the table |
| Symtab.ComparesByAddressIff | lib/debugger-utils/elf-symtab.cc:87-95 | two symbols that do not overlap compare by address exactly if the low half of the difference is in the right half of its range |
| Symtab.TidyIsConsistent | lib/debugger-utils/elf-symtab.cc:87-99 | extents equal or disjoint, no wrap and differences below 2^31 make the comparison one that qsort accepts |
| Symtab.SortedIsParted | lib/debugger-utils/elf-symtab.cc:97-110 | and the sorted table is parted by any address in reach |
| Symtab.LookUp | lib/debugger-utils/elf-symtab.cc:97-110 | so sort and search find a symbol exactly if a scan of the unsorted table does, and the symbol found contains the address |
| Symtab.OneSymbolIff | lib/debugger-utils/elf-symtab.cc:87-95 | with one symbol the answer is right exactly if it covers the address or is not a multiple of 4 GiB away |
| Symtab.FarSymbolIsFound | lib/debugger-utils/elf-symtab.cc:87-95 | counterexamples at 4 GiB and 2 GiB |
| Symtab.SearchFinds | lib/debugger-utils/elf-symtab.cc:101-110 | the halving search on any table: what it finds compares equal, and it misses nothing if the key parts the table |
| Symtab.AliasesHideEachOther | lib/debugger-utils/elf-symtab.cc:87-110 | counterexample: two names of one address with different sizes, where the search misses the longer one |
| Symtab.OverlapIsInconsistent | lib/debugger-utils/elf-symtab.cc:87-95 | counterexample: overlapping symbols break the order |
| BuildIds.ReadBuildId | lib/debugger-utils/elf-reader.cc:164-218 | terminates on every input; the result, the string left in the buffer and the ranges asked for are those of the walk over the note segments |
| BuildIds.BuildIdOfFile | lib/debugger-utils/elf-reader.cc:164-218 | on well-formed note segments: no error, the buffer holds the lower-case hex of the first id or the empty string, and every range read is inside a note segment |
| BuildIds.TouchesNotesOnly | lib/debugger-utils/elf-reader.cc:186-212 | on a concatenation of well-formed notes the walk asks for nothing outside it |
| BuildIds.StoreId | lib/debugger-utils/elf-reader.cc:203-208 | two lower-case digits per byte and a terminator; nothing at all for an empty id |
| BuildIds.WalkReadsNotes | lib/debugger-utils/elf-reader.cc:186-212 | on a concatenation of well-formed notes, whatever is around it, the walk finds the first build id; an empty one in last place is passed over |
| BuildIds.FirstIdOfFile | lib/debugger-utils/elf-reader.cc:174-218 | over all segments: the first segment that has one |
| BuildIds.NoteIsSeen | lib/debugger-utils/elf-reader.cc:187-201 | a note is taken for a build id exactly if it is one; header and payload sizes are its encoded size |
| BuildIds.WalkIff | lib/debugger-utils/elf-reader.cc:186-212 | on any bytes, well formed or not: the outcome of a walk is the one at the end of its trail of notes, where what is left of the segment is its size less the way made, modulo 2^64 |
| BuildIds.NoteAtIs | lib/debugger-utils/elf-reader.cc:187-215 | what is made of the bytes of any note, well formed or not |
| BuildIds.PaddedIs | lib/debugger-utils/elf-reader.cc:190-191 | sizes are rounded up to 4, on 32 bits |
| Prelude.DecimalIs | lib/debugger-utils/elf-reader.cc:202-204 | the decimal number in the text for an id that is too large |
| DsoLists.DsoList.DsolistAdd | lib/debugger-utils/dso-list.cc:28-57 | splices one node into an acyclic list at its place; all other nodes stay |
| DsoLists.DsoList.DsoLookup | lib/debugger-utils/dso-list.cc:155-162 | the first node not above pc |
| DsoLists.DsoList.DsoGetMainExec | lib/debugger-utils/dso-list.cc:164-171 | a node marked as main executable, null exactly if there is none |
| DsoLists.DsoFetchList | lib/debugger-utils/dso-list.cc:59-143 | the modules reached, in list order; only the first can be the main executable, and it is exactly if its headers can be read |
| DsoLists.ListIsSorted | lib/debugger-utils/dso-list.cc:28-57 | after any sequence of adds: exactly the added entries, by base downwards, earlier ones first among equals |
| DsoLists.LookupFindsModule | lib/debugger-utils/dso-list.cc:155-162 | for any modules and any address: the greatest base not above it, the earliest added of them, and null exactly if there is none |
| TraceDump.DumpBuffer | bin/ipt/control.cc:491-519 | the whole buffer or as much as is left, or up to the first chunk that cannot be read or written, which it names |
| TraceDump.WriteBufferData | bin/ipt/control.cc:461-530 | the dump ends at the first request that fails or when it has all it can have; that decides the file, always a prefix of the concatenated buffers, and the status; the last assertion fails exactly if nothing else does and more was asked for than there is |
| TraceDump.HaltsOnce | bin/ipt/control.cc:461-530 | for given outcomes of the requests there is only one place a dump can end |
| TraceDump.ShortSuccessIff | bin/ipt/control.cc:478-489 | success with less than was asked for, exactly if the first request to fail is that for a buffer handle |
| TraceDump.FileIs | bin/ipt/control.cc:461-530 | what the file holds for each way to end, in terms of the buffers |
| TraceDump.DumpAll | bin/ipt/control.cc:466-530 | with every call successful and no more asked for than there is: exactly the first capture_end bytes, or all if circular |

## Left out

- LookUp: the hypotheses on the table (`Tidy`, `Near`) are shown sufficient, with a counterexample to dropping each; the exact condition is stated per pair of symbols and for one symbol, since for a whole table it depends on the order qsort leaves.
- Sockets, the reading side of the I/O loop, thread creation, locks and quitting.
- Command line parsing, `main`, logging, and what a monitor command does besides replying.
- HandleQueryXfer: the bytes of the auxiliary vector are a parameter; the source applies the offset in entries, so no byte-slice claim is made.
- Handle_M: the writes made are a history; that a later `m` reads them back is not stated, since what memory holds is a parameter. `Breakpoints` has writes to memory.
- Software breakpoints through `z` and `Z`: the handler is switched off in the source; the breakpoint sets are modelled on their own, and not across reruns, since clearing a process does not clear its breakpoints.
- `ParseThreadId` without a dot uses an unset length in the source; the model takes the meaning its comment gives: all threads of that process.
- The signal a machine exception maps to is a parameter, not 0; exit codes are reduced to a byte.
- Building the module list when a software breakpoint is hit, with the refresh of the registers and the check on it (lib/inferior-control/process.cc:650-651); `DsoFetchList` takes the link map as a finite list, so a cyclic one is not modelled.
- The destructor of `Process`, and attaching at start-up before the server runs.
- `qsort` and `bsearch` are library code: `Finalize` takes any outcome C allows, `FindSymbol` is the usual halving search.
- `base + offset` in `ReadBuildId` is taken modulo 2^64, but the memory it reads is one block from address 0 up to less than 2^63.
- `num_buffers * buffer_size` is not reduced modulo 2^64 in `WriteBufferData`, nor is the configuration fetched.
- arm64, cpuid, the PT decoder, ktrace and the ipt command line.
