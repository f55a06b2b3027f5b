# Amiga bridge: verified models

Models of the Amiga bridge daemon, its client library and its Python host, with proofs
of the properties their protocols and codecs depend on. `dafny verify dfyconfig.toml`
checks the whole project.

- **Messages** (`Messages`, `HookCalls`, `Handlers`, `Exchange`): one client and the
  daemon exchange pool messages over two FIFO ports. Either side may start a request while it waits: a
  hook called in the middle of a wait may wait itself. The model is a step relation over
  ports, pool and call stack; `Exchange` has the loops of both programs as methods that
  compute its functions.
- **Debugger** (`Breakpoints`, `Debugger`, `Commands`, `RemoteDebugger`): software
  breakpoints over byte-addressed memory. Daemon commands interleave with instructions,
  TRAP #15, Trace and TRAP #14 exceptions and the pause stub; `Commands` says what each
  command does, and `RemoteDebugger` has the commands and handlers as methods.
- **Codecs and files** (`Crc`, `Rle`, `Base64`, `ScreenRow`, `DirListing`, over `Bytes`
  and `Text`): the file checksum, the screenshot codecs and their row pipeline, and
  paged directory listings with the host that follows and reads the pages.
- **Text transport** (`TextTransport`): escaping, pieces of long text, reply envelopes
  and pages.
- **Disassembler** (`Opcodes`, `Disasm`, with `Assembly`, `Decoding`, `AssemblyListing`):
  the 68k decoder and its listing loop, against an instruction set with an assembler of
  its own.
- **Registries** (`Tables`, `Agreement`, `Registry`, `RegistryMeaning`, `Clients`): the
  client's slot tables and the daemon's dense lists of variables, hooks and memory
  regions, with the messages between them, and the maps they stand for.
- **Ring buffer** (`SnoopRing`, `SnoopNesting`): the overwriting ring of the call monitor
  as a queue, and what recordings that interrupt each other and the drain leave in it.

Where a documented promise is not met by the code, the exact condition is proved:

- the size documented for the run-length coder does not hold for one-byte pixels
  (`Rle.DocumentedSizeForNarrowRows`), which leaves the pen-index path short of room
  above 3120 pixels (`ScreenRow.PenRowFits`);
- the size documented for the base64 decoder does not hold for every length
  (`Base64.DocumentedDecodeSize`);
- a directory line is damaged from a million entries on (`DirListing.LineIsExact`);
- `ab_poll`, called inside a handler while a wait is pending, need not end
  (`Messages.PollEndsIffNoOuterReply`, reached in `Messages.OuterReplyInPollIsReachable`);
- a forwarded command whose handler sends a message, as `ab_cmd_respond` does, and finds
  a free slot for it, always times out (`Handlers.ForwardIsAnsweredIff`, reached in `Handlers.ForwardTimesOut`);
- MOVE to CCR is never decoded (`AssemblyListing.MoveToCcrIsData`);
- DBGDETACH between a trap and its trace leaves breakpoints in memory
  (`Debugger.DetachRestoresIff`, reached in `Debugger.WindowIsReachable`);
- some file names are misread by the host (`DirListing.ParseOfLine`,
  `DirListing.ReceivedLine`, `DirListing.MisreadNames`), so that following the pages does
  not list every directory (`DirListing.ListDirAll`);
- the tick of a monitor entry is its ordinal only if it was filled in before the next
  event (`SnoopNesting.NestedRun`);
- recordings that come while the drain advances its read index can lose the whole ring
  (`SnoopNesting.StepBalances`, `SnoopNesting.FullRingIsLost`);
- a breakpoint hit does not stop while a CTRL_F is pending, as DBGDETACH leaves one
  (`Debugger.BreakpointHitStops`, reached in `Debugger.PendingSignalIsReachable`);
- an escaped text can contain the two characters of a slot mark, though never at its
  start (`TextTransport.MarksInEscape`);
- names longer than 33 characters, names with a bar and restarted clients can set the
  two registries apart (`Agreement.LongNameAgrees`, `Registry.CallAgreesIff`,
  `Registry.BarInVarName`, `Registry.BarInHookName`, `Registry.BarInRegionName`,
  `Clients.RestartAgrees`, `Registry.RestartedRunAgrees`).

## Model

| member | source | states |
|---|---|---|
| Messages.InUseMessageHasOnePlace | amiga-bridge/client/bridge_client.c:115-203 | after every run of sends, receives, nested hooks, polls, pauses, dispatches and timeouts, an in-use pool message is in exactly one of the daemon's port, the daemon's hands, the client's port and the hands of the caller it was returned to; a free one is in none |
| Messages.StepKeepsInv | amiga-bridge/client/bridge_client.c:153-203 | every client or daemon step keeps the invariant: one place for each allocated message, one stack frame for each used slot, codes and bodies of messages intact, dispatch in send order |
| Messages.RunKeepsInv | amiga-bridge/client/bridge_client.c:153-203 | so does every run |
| Messages.WaitReturnsItsOwnReply | amiga-bridge/client/bridge_client.c:181-203 | `send_and_wait` returns its own message, answered by the daemon, with the body its own call sent |
| Messages.OuterReplyIsReposted | amiga-bridge/client/bridge_client.c:796-798 | an outer reply seen by an inner wait, poll or pause loop goes to the back of the client's port, and nothing else changes |
| Messages.ClientCodeIsReposted | amiga-bridge/include/bridge_ipc.h:13-38 | no branch for the daemon's codes takes a message with one of the client's codes, whichever loop reads it |
| Messages.WaiterIsQueued | amiga-bridge/client/bridge_client.c:181-203 | every wait on the stack, however deeply nested, has its message in a queue the daemon drains or the client reads |
| Messages.BlockedClientCanBeServed | amiga-bridge/src/protocol_handler.c:1331-1354 | a client blocked in `send_and_wait` is never deadlocked: it can receive, or the daemon can take or answer a message |
| Messages.DaemonMessageOutlivesTimeout | amiga-bridge/src/protocol_handler.c:1374-1381 | a daemon message that was not freed, timed out or not, is in exactly one place; a freed one is nowhere the client could reach it |
| Messages.DispatchInSendOrder | amiga-bridge/src/ipc_manager.c:102-381 | the daemon dispatches every send once, in the order sent; with empty queues it has dispatched all of them |
| Messages.SendPuts | amiga-bridge/client/bridge_client.c:153-179 | `send_and_wait` with a free slot puts one message, with the code and body it was called with, at the end of the daemon's port and waits for it; without one it changes nothing |
| Messages.CallsAreHandled | amiga-bridge/src/ipc_manager.c:102-381 | from the start: the bodies dispatched are the first of those that the run's calls were made with, in order, and all of them once the daemon's queues are empty |
| Messages.PostPuts | amiga-bridge/src/ipc_manager.c:398-420 | a message of the daemon goes to the end of the client's port with its code, and no other message changes |
| Messages.WaitsNestAtMostFour | amiga-bridge/client/bridge_client.c:115-128 | waits nest at most as deep as the pool has slots |
| Messages.PollEndsIffNoOuterReply | amiga-bridge/client/bridge_client.c:802-826 | with no new arrivals, no DEBUG_PAUSE queued and every handler answering at once, the loop of `ab_poll` ends if and only if no reply to an outer wait is in the client's port: such a reply is re-posted for ever |
| Messages.OuterReplyInPollIsReachable | amiga-bridge/client/bridge_client.c:802-826 | the state in which that loop does not end is reached: a send, a hook called while it waits, the send answered, and the hook polls |
| Messages.PollByApplicationEnds | amiga-bridge/client/bridge_client.c:802-826 | under the same conditions `ab_poll` always ends when the application itself calls it, outside any handler |
| HookCalls.DrainAnswersAll | amiga-bridge/src/ipc_manager.c:102-381 | `ipc_process` answers every queued message into the client's port, in order, and changes nothing else |
| HookCalls.SpinReturns | amiga-bridge/client/bridge_client.c:181-203 | the wait loop hands the waiter its own message and only rotates the others |
| HookCalls.HookCompletes | amiga-bridge/src/protocol_handler.c:1339-1354 | a running hook or command handler that makes N sends is answered within N + 2 iterations of the daemon's loop, whatever it is nested in and whatever the interrupted calls still have in the daemon's port; its sends are dispatched once each in order, and the interrupted calls find their stack and slots as they were |
| HookCalls.PostedHookCompletes | amiga-bridge/src/protocol_handler.c:1307-1354 | the same from the moment the daemon has posted the call, CMD_FORWARD or HOOK_CALL, with any number of outer replies ahead of it in the client's port and any messages in the daemon's: within N + 2 iterations it is picked up, run and answered |
| HookCalls.PostedIsReachable | amiga-bridge/src/protocol_handler.c:1307-1337 | posting a hook call to a client that waits leads to such a state, with the client's own message still in the daemon's port |
| HookCalls.TimeoutFreesNothing | amiga-bridge/src/protocol_handler.c:1374-1381 | on a timeout no message has been freed |
| HookCalls.HookIsPickedUp | amiga-bridge/client/bridge_client.c:560-687 | a posted hook call or forwarded command is picked up by whichever loop reads the port, after exactly the outer replies ahead of it, which are rotated behind it; nothing else changes |
| Exchange.Bridge.PoolAlloc | amiga-bridge/client/bridge_client.c:115-128 | takes the lowest free slot, or none |
| Exchange.Bridge.PoolFree | amiga-bridge/client/bridge_client.c:130-140 | frees exactly the slot of the message |
| Exchange.Bridge.BeginSend | amiga-bridge/client/bridge_client.c:153-179 | the state after `send_and_wait` has put its message; it fails exactly when no slot is free |
| Exchange.Bridge.ProcessDaemonMsg | amiga-bridge/client/bridge_client.c:560-800 | the dispatch on the code: handler, pause loop, or reply |
| Exchange.Bridge.ReceiveOne | amiga-bridge/client/bridge_client.c:181-203 | one `GetMsg` by the loop on top of the stack computes the step of the relation |
| Exchange.Bridge.WaitLoop | amiga-bridge/client/bridge_client.c:181-203 | the loop that reads the client's port computes the specification's spin |
| Exchange.Bridge.IpcProcess | amiga-bridge/src/ipc_manager.c:102-381 | the dispatch loop computes the specification's drain |
| Exchange.Bridge.WaitForHook | amiga-bridge/src/protocol_handler.c:1339-1381 | the retry loop computes the specification's hook call, freeing only after a reply |
| Exchange.Bridge.WaitForClient | amiga-bridge/src/ipc_manager.c:422-461 | the retry loop of `ipc_send_to_client`, which dispatches nothing, computes the specification's forward |
| Handlers.HandlerStarts | amiga-bridge/client/bridge_client.c:560-687 | a CMD_FORWARD or HOOK_CALL message read by any loop starts its handler on top of it, and nothing else changes |
| Handlers.NoHandlerAnswers | amiga-bridge/client/bridge_client.c:560-687 | without a handler it is answered at once, and nothing else changes |
| Handlers.PlainAnswers | amiga-bridge/client/bridge_client.c:560-800 | any other message of the daemon, but for DEBUG_PAUSE and DEBUG_RESUME, is answered at once by whatever reads it |
| Handlers.HandlerRunsOnce | amiga-bridge/client/bridge_client.c:560-687 | over every run the handler of a message starts exactly when the message leaves the port, once, and returns once, exactly when it is answered; no step goes back |
| Handlers.AnsweredAfterReturn | amiga-bridge/client/bridge_client.c:560-687 | from the start: a posted command or hook call is in its temporary port, or freed, only after its handler was started once and returned once; in the client's port only before it was started; in between exactly its activation is on the stack |
| Handlers.ReadInPostOrder | amiga-bridge/src/ipc_manager.c:398-420 | from the start: the daemon's messages are read by the client in the order they were posted, each once; those read and those still in the port are all there were |
| Handlers.PauseStarts | amiga-bridge/client/bridge_client.c:761-787 | reading a DEBUG_PAUSE answers it and pauses whatever read it |
| Handlers.StrayResume | amiga-bridge/client/bridge_client.c:796-798 | a DEBUG_RESUME read by another loop than the pause loop is only answered |
| Handlers.OnlyResumeEnds | amiga-bridge/client/bridge_client.c:769-786 | a step of any kind leaves a pause on the stack unless it reads a DEBUG_RESUME in exactly that pause, which answers it and goes on below |
| Handlers.PauseLastsUntilResume | amiga-bridge/client/bridge_client.c:769-786 | over every run: a paused activation is left only by a DEBUG_RESUME that ends exactly that pause |
| Handlers.ForwardIsAnsweredIff | amiga-bridge/src/ipc_manager.c:422-461 | a forwarded command is answered in time if and only if its handler sends nothing to the daemon, or finds no free slot to send with: however long the daemon waits, it dispatches nothing meanwhile |
| Handlers.ForwardTimesOut | amiga-bridge/client/bridge_client.c:833-850 | an input, reached from the start: a polling client whose handler answers through `ab_cmd_respond`, which sends a message, leaves the forwarded command to time out |
| Breakpoints.RestoredIsPristine | amiga-bridge/src/debugger.c:444-489 | writing the saved words back over the enabled entries gives the pristine code image |
| Breakpoints.DisabledHoldsPristine | amiga-bridge/src/debugger.c:458-470 | a used but disabled entry sits over its pristine word |
| Breakpoints.UnlistedHoldsPristine | amiga-bridge/src/debugger.c:444-470 | an even address without an enabled entry holds its pristine word |
| Breakpoints.NewEntryKeeps | amiga-bridge/src/debugger.c:914-983 | the word BPSET reads from patched memory and saves is the pristine one |
| Breakpoints.ArmKeeps | amiga-bridge/src/debugger.c:311-321 | arming an entry, enabled before or not, keeps patch integrity |
| Breakpoints.UnpatchKeeps | amiga-bridge/src/debugger.c:458-470 | unpatching an entry keeps patch integrity |
| Breakpoints.WritesKeep | amiga-bridge/src/debugger.c:444-489 | so do the target's writes outside the patched words |
| Debugger.PatchIntegrity | amiga-bridge/src/debugger.c:157-321 | after every interleaving of commands, traps, traces and stub wake-ups: used entries have distinct even addresses, none is temporary, the count is right, enabled entries hold TRAP #15 and disabled ones the pristine word, and the saved words restore the pristine image |
| Debugger.StepKeepsInv | amiga-bridge/src/debugger.c:157-321 | every command and exception keeps the invariant, DBGDETACH of a stopped target inside the trap-to-trace window excepted |
| Debugger.TrapIsOurs | amiga-bridge/src/debugger.c:179-200 | a TRAP #15 the target meets is always one of the enabled entries |
| Debugger.ClearAllLeavesPristine | amiga-bridge/src/debugger.c:1226-1244 | CLEARALL leaves memory pristine at any time, also between trap and trace |
| Debugger.DetachRestoresIff | amiga-bridge/src/debugger.c:827-871 | DBGDETACH of a stopped target leaves memory pristine on every schedule of its Delay if and only if it is not issued between a trap and its trace, or no entry is used |
| Debugger.WindowDetachFails | amiga-bridge/src/debugger.c:836-850 | in that window one traced instruction re-arms the table behind DBGDETACH's back |
| Debugger.WindowIsReachable | amiga-bridge/src/debugger.c:827-850 | the window is reached: attach, set a breakpoint, trap on it and report the stop before the traced instruction has run |
| Debugger.DetachRunningRestores | amiga-bridge/src/debugger.c:850-871 | DBGDETACH of a running target restores memory at once |
| Debugger.StepExecutesOneInstruction | amiga-bridge/src/debugger.c:1054-1089 | DBGSTEP from a reported stop, other commands interleaved that neither detach nor break nor plant a breakpoint on the very instruction: the stub can only wake, the traced word is the original, the next exception is a Trace and never a TRAP #15, and after that one instruction every used breakpoint is armed with trap and resume PC at the new PC |
| Debugger.PlantingBreaksStep | amiga-bridge/src/debugger.c:914-983 | planting a breakpoint on the instruction that is about to be traced breaks the step: the target can only trap, and the step becomes a breakpoint hit |
| Debugger.PlantingBreaksPendingStep | amiga-bridge/src/debugger.c:914-983 | so does planting one before the stub has woken: it wakes into the TRAP #15 |
| Debugger.BreakpointHitStops | amiga-bridge/src/debugger.c:157-293 | a running target that reaches a breakpoint executes the original instruction once and gets into the pause stub behind it with every breakpoint armed and the first unreported hit recorded; the stub waits there if and only if no CTRL_F is pending |
| Debugger.PendingSignalRunsOn | amiga-bridge/src/debugger.c:354-375 | with a CTRL_F pending it goes straight on behind the breakpoint, and the next poll reports a running target as stopped |
| Debugger.SignalOutlivesDetach | amiga-bridge/src/debugger.c:836-871 | after every DBGDETACH of a stopped target that wakes during the Delay, memory is pristine, no entry is used and the handlers are out, but the second CTRL_F is pending, and attaching again leaves it so |
| Debugger.PendingSignalIsReachable | amiga-bridge/src/debugger.c:760-850 | a run from the start reaches a hit with that signal pending: a hit is reported, the target detached and attached to again, and a breakpoint set where it goes next |
| Debugger.ContinueResumes | amiga-bridge/src/debugger.c:1177-1201 | DBGCONT resumes behind the breakpoint with every entry armed |
| Debugger.PollReportsStop | amiga-bridge/src/debugger.c:732-756 | `dbg_poll` reports a stop in the stub and leaves code and table alone |
| Commands.ClearsHit | amiga-bridge/src/debugger.c:985-1022 | BPCLEAR of an entry, by its number or else its address, frees it: nothing is listed at its address any more, memory holds the target's own word there, the count is one lower, and every other entry and every byte outside that word is as it was |
| Commands.ClearsNothing | amiga-bridge/src/debugger.c:985-1022 | without such an entry, or without a session, BPCLEAR changes nothing |
| Commands.SetsBreakpoint | amiga-bridge/src/debugger.c:914-983 | BPSET at an even address in RAM that is not listed arms the first free entry with the target's own word saved; the count is one higher, and every other entry and every byte outside that word is as it was |
| Commands.SetsNothing | amiga-bridge/src/debugger.c:914-983 | anywhere else, with a full table, or without a session, BPSET changes nothing |
| Commands.SetThenClear | amiga-bridge/src/debugger.c:914-1022 | a breakpoint that is set and cleared again leaves memory, the count and all other entries as they were |
| Commands.NextRuns | amiga-bridge/src/debugger.c:1132-1175 | DBGNEXT from a reported stop: with a breakpoint above it the target goes on behind the stop with everything armed; with none it traces the one instruction at the stop, which is not patched |
| Commands.BreakSignals | amiga-bridge/src/debugger.c:873-912 | DBGBREAK of a running target leaves memory, table and PC alone, and the target is taken as stopped while it is not |
| Commands.AttachStarts | amiga-bridge/src/debugger.c:760-825 | a new session has no breakpoint and no hit, and leaves memory and the task as they are |
| Commands.Refused | amiga-bridge/src/debugger.c:760-1201 | commands without a session, a second attach, run controls of a target that is not stopped, DBGBREAK of a stopped one and a poll without a hit change nothing |
| RemoteDebugger.Session.HandleBpSet | amiga-bridge/src/debugger.c:914-983 | refuses a session that is not attached, an address outside RAM or odd, a used address and a full table; else it saves the word in memory in the first free entry, counts it, installs the handlers and writes TRAP #15 |
| RemoteDebugger.Session.HandleBpClear | amiga-bridge/src/debugger.c:985-1022 | takes the argument as the number of a used entry first and as an address second; the entry found gets its word back if it was armed, and is freed and uncounted |
| RemoteDebugger.Session.HandleClearAll | amiga-bridge/src/debugger.c:1226-1244 | gives every armed entry its word back, frees all entries and sets the count to 0 |
| RemoteDebugger.Session.HandleStep | amiga-bridge/src/debugger.c:1054-1089 | only when stopped: disarms the entry at the trap address, asks the stub for a step from there, leaves the stop and signals the target |
| RemoteDebugger.Session.HandleContinue | amiga-bridge/src/debugger.c:1177-1201 | only when stopped: leaves the stop and signals the target, and touches neither code nor table |
| RemoteDebugger.Session.HandleNext | amiga-bridge/src/debugger.c:1132-1175 | with some used breakpoint above the trap address it does what DBGCONT does, otherwise what DBGSTEP does |
| RemoteDebugger.Session.HandleAttach | amiga-bridge/src/debugger.c:760-825 | unless attached already: empties all entries, the count and the hit flag, takes the task as it is with its pending signal, and takes it as stopped exactly if it is in TS_WAIT |
| RemoteDebugger.Session.HandleBreak | amiga-bridge/src/debugger.c:873-912 | only when running: signals the target and takes it as stopped at once, touching neither code nor table |
| RemoteDebugger.Session.PollTrap | amiga-bridge/src/debugger.c:732-756 | turns a recorded hit into a reported stop once, and drops temporary entries from table and count |
| RemoteDebugger.Session.HandleDetach | amiga-bridge/src/debugger.c:827-871 | a running target: every entry disarmed and freed and all flags cleared; a stopped one: entries disarmed, step and hit dropped, the target signalled, and the rest left for after the Delay |
| RemoteDebugger.Session.UnpatchAll | amiga-bridge/src/debugger.c:472-489 | writes back the saved word of every armed entry, in order, and changes nothing but those words and flags |
| RemoteDebugger.Session.RepatchAll | amiga-bridge/src/debugger.c:311-321 | writes TRAP #15 over every used entry that is not temporary, enabled or not, and changes nothing else |
| RemoteDebugger.Session.Trap15Handler | amiga-bridge/src/debugger.c:157-230 | puts the word of the hit entry back and disarms it, records the PC of the first unreported hit only, and asks for a trace to step past it |
| RemoteDebugger.Session.TraceException | amiga-bridge/src/debugger.c:236-296 | by mode: goes on, or arms all entries again and parks with the next PC to resume at, after a DBGSTEP also reporting a hit there |
| RemoteDebugger.Session.PauseStubWakes | amiga-bridge/src/debugger.c:329-375 | leaves the stub at the resume PC, or, when a step was asked for, through TRAP #14 with the trace bit on |
| Crc.FsChecksum | amiga-bridge/src/fs_access.c:445-490 | the checksum is CRC-32 of section 8 of RFC 1952, bit at a time, over the whole file, however it is split into reads; the size is its length modulo 2^32; open and read errors fail |
| Crc.AbsorbChunk | amiga-bridge/src/fs_access.c:474-480 | the inner loop absorbs the bytes of one read into the register |
| Crc.NibblesAbsorb | amiga-bridge/src/fs_access.c:456-480 | two table lookups are eight steps of the reflected shift register |
| Crc.TableIsFourShifts | amiga-bridge/src/fs_access.c:455-461 | each of the sixteen table entries is four steps of the register |
| Crc.BurstIsDetected | amiga-bridge/src/fs_access.c:456-488 | two files of equal length that differ only within 32 consecutive bits, wherever these start, never have the same checksum |
| Crc.ShortBurstIsDetected | amiga-bridge/src/fs_access.c:456-488 | so two files that differ only within four or fewer consecutive bytes never have |
| Crc.CheckValue | amiga-bridge/src/fs_access.c:445-490 | the checksum of the digits 1 to 9 is 0xCBF43926, the check value of the CRC-32 of zip and gzip |
| Crc.AbsorbBitsInjective | amiga-bridge/src/fs_access.c:474-482 | from one register, different strings of the same number of bits, at most 32, lead to different registers |
| Crc.AbsorbAllInjective | amiga-bridge/src/fs_access.c:474-482 | equal data keeps different registers different |
| Rle.RleEncode | amiga-bridge/src/gfx_inspector.c:190-221 | writes exactly the packets of the pixels and nothing past them |
| Rle.RleDecode | amiga-devbench/amiga_devbench/screenshot.py:55-77 | decodes a stream by its packet rules, cut-off packets included |
| Rle.RoundTrip | amiga-bridge/src/gfx_inspector.c:171-221 | decoding an encoded row returns it, for every count and pixel width |
| Rle.EncodeIsNormal | amiga-bridge/src/gfx_inspector.c:194-219 | every run has 2 to 128 pixels and stops short of 128 only before another pixel; no literal has equal neighbours; a literal shorter than 128 is last or followed by a run |
| Rle.NormalIsEncode | amiga-bridge/src/gfx_inspector.c:194-219 | these rules determine the packets |
| Rle.ReencodeNormal | amiga-bridge/src/gfx_inspector.c:171-221 | re-encoding what a normal-form stream decodes to returns the stream |
| Rle.PacketForms | amiga-bridge/src/gfx_inspector.c:171-221 | a run of n pixels is the byte 127 + n and the pixel, a literal of n pixels the byte n - 1 and the pixels |
| Rle.DecodeForms | amiga-devbench/amiga_devbench/screenshot.py:55-77 | any data, from its first byte: 128 or more repeats the next pixel that many times less 127, less than 128 copies one pixel more than it says, and where the data ends in between, what is there is repeated or copied |
| Rle.DocumentedSizeSuffices | amiga-bridge/src/gfx_inspector.c:185-221 | for pixels of two bytes or more the output takes at most one header for every 128 pixels begun, so at most the documented size |
| Rle.SizeBoundIsMet | amiga-bridge/src/gfx_inspector.c:185-221 | a row without equal neighbours takes exactly that much |
| Rle.NarrowRowSize | amiga-bridge/src/gfx_inspector.c:185-221 | for one-byte pixels the output takes at most one header for every three pixels begun |
| Rle.DocumentedSizeForNarrowRows | amiga-bridge/src/gfx_inspector.c:185-221 | for one-byte pixels the documented size holds every row if and only if the row has at most three pixels |
| Rle.NarrowRowFits | amiga-bridge/src/gfx_inspector.c:185-221 | for one-byte pixels an area holds every row of a length if and only if it holds a third more, rounded up |
| Base64.B64Encode | amiga-bridge/src/b64.c:22-49 | writes ((len + 2) / 3) * 4 characters and a NUL, and nothing past them |
| Base64.EncodeMeaning | amiga-bridge/src/b64.c:22-49 | the symbols spell the bits of the data, filled up with zeros (section 4 of RFC 4648) |
| Base64.EncodeShape | amiga-bridge/src/b64.c:22-49 | alphabet characters only, but for one `=` for every two fill bits at the end |
| Base64.Alphabet | amiga-bridge/src/b64.c:15-16 | the 64 symbols are those of section 4 of RFC 4648: capitals, small letters, digits, plus and slash |
| Base64.KnownEncodings | amiga-bridge/src/b64.c:22-49 | f, fo, foo and foobar are encoded as in section 10 of RFC 4648 |
| Base64.B64Decode | amiga-bridge/src/b64.c:56-79 | with its accumulator wrapping at 32 bits, writes the floor(6k / 8) whole bytes of the unbounded bit string the k alphabet characters spell, and nothing past them |
| Base64.WrapIsHarmless | amiga-bridge/src/b64.c:71-76 | wrapping the accumulator changes nothing in the byte that is read |
| Base64.RoundTrip | amiga-bridge/src/b64.c:22-79 | decoding returns the data from any text with the same alphabet characters: padding dropped, noise inserted anywhere |
| Base64.DocumentedDecodeSize | amiga-bridge/src/b64.c:51-55 | the documented size (inlen / 4) * 3 holds what every text of a length decodes to if and only if the length leaves at most one character over |
| ScreenRow.RowBuffers.SendRow | amiga-bridge/src/gfx_inspector.c:338-355 | the line of one row: RGB order, width cut at 1920, run-length coded, base64 coded, within the three buffers and BRIDGE_MAX_LINE |
| ScreenRow.RowFits | amiga-bridge/src/gfx_inspector.c:328-353 | for every row up to 1920 pixels the RLE buffer, the text buffer and the line hold their contents with the NUL |
| ScreenRow.RowArrives | amiga-bridge/src/gfx_inspector.c:338-355 | splitting the line, base64-decoding and run-length-decoding it gives back the row number and, pixel by pixel, the red, green and blue bytes of the BGRA row |
| ScreenRow.PenRowFits | amiga-bridge/src/gfx_inspector.c:417-438 | in the one-byte-pixel path the coded row fits its 4160-byte buffer for every picture if and only if it has at most 3120 pixels, while rows up to 4000 are taken |
| ScreenRow.PenLineFits | amiga-bridge/src/gfx_inspector.c:417-440 | its text buffer and line hold every coded row of up to 4000 pixels |
| DirListing.FsListDir | amiga-bridge/src/fs_access.c:58-139 | returns the total and leaves the NUL-terminated line of the page in the buffer; a path that cannot be examined returns -1 and leaves the buffer alone |
| DirListing.LineIsExact | amiga-bridge/src/fs_access.c:119-134 | after the count patch and the move the line is DIR, path, total and the joined entries if and only if the total is below a million |
| DirListing.PageMakesProgress | amiga-bridge/src/fs_access.c:98-117 | while entries are left, a page shows at least one when the path leaves room for a full entry |
| DirListing.PageIsStretch | amiga-bridge/src/fs_access.c:98-117 | a page is a contiguous stretch of the directory from the start index |
| DirListing.PageIsMaximal | amiga-bridge/src/fs_access.c:98-117 | a page holds as many entries as fit: each fits behind those in front of it with ten characters kept free, and the page ends with the directory or in front of an entry that does not fit |
| DirListing.PagesCoverDirectory | amiga-bridge/src/fs_access.c:98-117 | for every directory, pages that start where the one before ended come to an end and show each entry once, in order |
| DirListing.ParseOfLine | amiga-devbench/amiga_devbench/protocol.py:146-169 | of a line as it was sent, the host's parser reads back path, total and entries if and only if no name has an opening parenthesis, a closing one followed by a comma or a blank in front, and the page's first has no bar in front; such a bar makes it read no entries |
| DirListing.ParsedNamesAreReadable | amiga-devbench/amiga_devbench/protocol.py:146-169 | from whatever line, the host takes no other names |
| DirListing.ReceivedLine | amiga-devbench/amiga_devbench/serial_conn.py:455-489 | through the line splitting and the noise filter in front of the parser, it reads them back if and only if, besides, path and names have no control character but tabs |
| DirListing.ReceivedNames | amiga-devbench/amiga_devbench/serial_conn.py:455-489 | whatever was sent, the host takes only names that are readable and without control characters |
| DirListing.MisreadNames | amiga-devbench/amiga_devbench/protocol.py:152-169 | inputs: names that are misread, one with a line end and one with a carriage return among them |
| DirListing.ClosedName | amiga-devbench/amiga_devbench/protocol.py:152-169 | a name with a closing parenthesis at its end is read back |
| DirListing.ListDirAll | amiga-devbench/amiga_devbench/mcp_tools.py:214-240 | following the pages ends for every directory; up to the cap of 100000 entries the result is the directory if and only if all names can be read back, none has a control character and no page starts with a bar, and with such names it is always a prefix of it, in order, each entry once |
| TextTransport.EscapeText | amiga-devbench/amiga_devbench/amiforge_tools.py:70-86 | the escape loop computes the specification |
| TextTransport.UnescapeText | amiga-devbench/amiga_devbench/amiforge_tools.py:89-108 | the unescape loop computes the specification, malformed escapes included |
| TextTransport.EscapedForm | amiga-devbench/amiga_devbench/amiforge_tools.py:70-86 | escaping writes a plain character as it is, one outside Latin-1 as a question mark, backslash, bar, quote, line ends, tabs and blanks as a letter, and any other as its code in two upper-case digits |
| TextTransport.LetterEscape | amiga-devbench/amiga_devbench/amiforge_tools.py:81-108 | each letter escape stands for its one character |
| TextTransport.HexEscape | amiga-devbench/amiga_devbench/amiforge_tools.py:81-108 | a code of two hexadecimal digits of either case stands for its character |
| TextTransport.PlainStays | amiga-devbench/amiga_devbench/amiforge_tools.py:89-108 | other characters, and a backslash at the end, stay |
| TextTransport.OtherStays | amiga-devbench/amiga_devbench/amiforge_tools.py:89-108 | so do escapes with another letter and codes that are cut off or no number |
| TextTransport.RoundTrip | amiga-devbench/amiga_devbench/amiforge_tools.py:66-108 | a text survives escaping and unescaping if and only if it is Latin-1, with blanks escaped or not |
| TextTransport.EscapeIsSafe | amiga-devbench/amiga_devbench/amiforge_tools.py:70-86 | the escaped form is printable, without bar, quote and line break |
| TextTransport.MarksInEscape | amiga-devbench/amiga_devbench/amiforge_tools.py:70-86 | a backslash followed by an at sign appears in the escaped form if and only if it appears in the text, and never at the start |
| TextTransport.TokensOfEscape | amiga-devbench/amiga_devbench/amiforge_tools.py:235-235 | the token pattern splits an escaped text into its escaped characters |
| TextTransport.TokensCoverText | amiga-devbench/amiga_devbench/amiforge_tools.py:235-235 | on every text the tokens make up the text |
| TextTransport.SendText | amiga-devbench/amiga_devbench/amiforge_tools.py:238-262 | rejects text that is not Latin-1, sends short text inline and long text in pieces, the first clearing the slot |
| TextTransport.PutTextForms | amiga-devbench/amiga_devbench/amiforge_tools.py:238-262 | text is refused if and only if it has a character outside Latin-1; otherwise up to 2500 escaped characters go inline, and more in commands as full as they can be: the first escape of the next one would have made more than 3000 |
| TextTransport.LongTextArrives | amiga-devbench/amiga_devbench/amiforge_tools.py:248-262 | every command is for the slot passed in, the first one alone clears it, and the mark returned names it; the pieces are nonempty, at most SLOT_CHUNK long, make up the escaped text, and the slot holds the text after them |
| TextTransport.ShortTextArrives | amiga-devbench/amiga_devbench/amiforge_tools.py:248-250 | inline text unescapes to the text |
| TextTransport.EnvelopeRoundTrip | amiga-devbench/amiga_devbench/amiforge_tools.py:115-133 | parsing inverts the envelope for every code, count and escaped payload, however many trailing blanks were stripped from the line |
| TextTransport.EnvelopeForms | amiga-devbench/amiga_devbench/amiforge_tools.py:115-133 | a line is read as an envelope if and only if it starts with the mark and has three numbers with one blank between each, the last two not negative; a missing body is blanks |
| TextTransport.NoEnvelopeForms | amiga-devbench/amiga_devbench/amiforge_tools.py:115-133 | without the mark it is no envelope, with fewer than three fields a malformed one |
| TextTransport.PayloadArrives | amiga-devbench/amiga_devbench/amiforge_tools.py:115-133 | a Latin-1 payload, also an empty or blank one, comes out as it went in |
| TextTransport.CallUnlocked | amiga-devbench/amiga_devbench/amiforge_tools.py:208-230 | the paging loop computes the specification |
| TextTransport.PagesArrive | amiga-devbench/amiga_devbench/amiforge_tools.py:208-233 | a reply in nonempty pages comes back whole exactly when at most 1000 follow the first |
| TextTransport.ReplyArrives | amiga-devbench/amiga_devbench/amiforge_tools.py:205-233 | for every code, every Latin-1 reply and every cut of it into nonempty pages, each sent as an envelope with trailing blanks stripped: up to 1000 pages behind the first, the call returns the whole reply if and only if the code is 0, and otherwise fails with that code and the whole reply as its text, or with a text naming the code when the reply is empty; beyond, it fails with code 0 |
| TextTransport.FirstAnswerFails | amiga-devbench/amiga_devbench/amiforge_tools.py:205-221 | a call whose first answer is missing, refused or no envelope fails |
| TextTransport.ReplyBreaksOff | amiga-devbench/amiga_devbench/amiforge_tools.py:212-230 | so does one whose pages break off: more is announced, and the next answer is missing, refused, no envelope, or an empty page that announces more again |
| Opcodes.PlanFits | amiga-devbench/amiga_devbench/disasm.py:851-930 | no opcode takes more than eight bytes after it, and all come in words |
| Opcodes.CallLengthsAgree | amiga-bridge/src/debugger.c:1096-1130 | the debugger's step-over length of a call is the decoder's, for every call opcode but 0x4EBC |
| Disasm.Stream.Word | amiga-devbench/amiga_devbench/disasm.py:699-705 | takes two bytes and gives the big-endian word in front, or takes nothing and reports the end of the data |
| Disasm.Stream.Long | amiga-devbench/amiga_devbench/disasm.py:712-716 | takes four bytes, or reports the end of the data |
| Disasm.Stream.DecodeEa | amiga-devbench/amiga_devbench/disasm.py:734-786 | takes two bytes for the displacement, indexed, PC-relative and short absolute modes, four for the long absolute one, two or four by size for an immediate and none for the others; it never refuses |
| Disasm.Stream.EaFromWord | amiga-devbench/amiga_devbench/disasm.py:804-809 | takes what the mode and register in the low six bits of the opcode call for |
| Disasm.Stream.ImmediateOp | amiga-devbench/amiga_devbench/disasm.py:1016-1029 | takes an immediate of two or four bytes by size, and then the operand |
| Disasm.Stream.Decode0 | amiga-devbench/amiga_devbench/disasm.py:933-1013 | MOVEP takes two bytes, a bit instruction its operand or, with a static number, two bytes and the operand; the immediate group its immediate and operand, two bytes for the status registers; it is refused with the size bits at 3, as is the form that is no instruction, with nothing taken |
| Disasm.Stream.DecodeMove | amiga-devbench/amiga_devbench/disasm.py:1032-1059 | takes the extension bytes of both operands, source first; a byte move to an address register is refused after the source was read |
| Disasm.Stream.Decode4 | amiga-devbench/amiga_devbench/disasm.py:1062-1165 | STOP and LINK take their word, MOVEM its mask and operand, PEA, LEA, CHK, JSR and JMP their operand, and the opcodes without operands or on one register nothing; everything else goes on to the one-operand group |
| Disasm.Stream.Decode4Sized | amiga-devbench/amiga_devbench/disasm.py:1167-1229 | the sized one-operand instructions take their operand at the size in the opcode; an opcode outside the group is refused with nothing taken |
| Disasm.Stream.Decode5 | amiga-devbench/amiga_devbench/disasm.py:1232-1263 | DBcc takes two bytes, Scc its byte operand, ADDQ and SUBQ their operand at the size in the opcode |
| Disasm.Stream.DecodeBranch | amiga-devbench/amiga_devbench/disasm.py:1266-1292 | takes two bytes for a displacement byte of 0, four for 0xFF and none otherwise |
| Disasm.Stream.Decode8 | amiga-devbench/amiga_devbench/disasm.py:1295-1327 | DIV takes a word operand, SBCD between registers nothing, OR its operand at the size in the opcode |
| Disasm.Stream.DecodeAddSub | amiga-devbench/amiga_devbench/disasm.py:1330-1366 | the address forms take a word or long operand, the extended forms between registers nothing, the others their operand at the size in the opcode |
| Disasm.Stream.DecodeB | amiga-devbench/amiga_devbench/disasm.py:1369-1402 | CMPA takes a word or long operand, CMPM nothing, CMP and EOR their operand at the size in the opcode |
| Disasm.Stream.DecodeC | amiga-devbench/amiga_devbench/disasm.py:1405-1448 | MUL takes a word operand, ABCD and EXG nothing, AND its operand at the size in the opcode |
| Disasm.Stream.DecodeShift | amiga-devbench/amiga_devbench/disasm.py:1451-1480 | a shift of memory takes a word operand, a shift of a register nothing |
| Disasm.Stream.DecodeOne | amiga-devbench/amiga_devbench/disasm.py:851-930 | takes the opcode and exactly the bytes its plan calls for, and accepts or refuses as planned; with fewer than two bytes left it reports the end of the data |
| Disasm.Disassemble | amiga-devbench/amiga_devbench/disasm.py:1485-1527 | the listing loop, with its rewinding, computes the specification |
| Decoding.InstructionDecodes | amiga-devbench/amiga_devbench/disasm.py:851-1480 | every instruction of the 33 forms in `Assembly`, with any operands they take, has a plan that decodes it with exactly as many words behind the opcode as its operands have |
| Decoding.DecodedIsInstruction | amiga-devbench/amiga_devbench/disasm.py:851-1480 | and every opcode with such a plan, whatever words follow, is one of these instructions |
| AssemblyListing.DecodedIff | amiga-devbench/amiga_devbench/disasm.py:851-1527 | an item is decoded if and only if some instruction's assembled bytes stand at its place |
| AssemblyListing.NeedsMoreIff | amiga-devbench/amiga_devbench/disasm.py:851-1527 | an item ends the listing if and only if the bytes left are the beginning of an instruction, or of a byte move to an address register, that is longer |
| AssemblyListing.ListingMeans | amiga-devbench/amiga_devbench/disasm.py:1485-1527 | the whole listing without the decoder: an instruction is listed with its bytes and the listing goes on behind it, a cut-off one ends it as a word of data, and any other word is listed as data |
| AssemblyListing.AssembledIsListed | amiga-devbench/amiga_devbench/disasm.py:851-1527 | for every instruction, followed by any data: its assembled bytes are listed as one decoded item with exactly these bytes, and then what follows is listed at its address |
| AssemblyListing.ProgramIsListed | amiga-devbench/amiga_devbench/disasm.py:851-1527 | a whole assembled program is listed instruction by instruction, each at its address, and then what follows it |
| AssemblyListing.MoveToCcrIsData | amiga-devbench/amiga_devbench/disasm.py:1177-1222 | an input: MOVE to CCR with any operand is never decoded, because its opcode passes the earlier test for NEG and is refused there |
| Disasm.HexSpells | amiga-devbench/amiga_devbench/disasm.py:1485-1527 | the text of an item spells each of its bytes in two upper-case hexadecimal digits |
| Disasm.ListingTiles | amiga-devbench/amiga_devbench/disasm.py:1485-1527 | for all bytes, base and count the items follow each other from the base, each covers 2 to 10 bytes, an even number, their hexadecimal text is that of a prefix of the data, and there are count of them unless the data runs out |
| Disasm.ListingIsLocal | amiga-devbench/amiga_devbench/disasm.py:1485-1527 | other data with the same bytes up to the end of a listing is listed the same if and only if it is as long as the decoder had read before the last item, and a last item that was cut off is still not an instruction there |
| Disasm.RefusedAfterReading | amiga-devbench/amiga_devbench/disasm.py:1043-1051 | the one kind of opcode refused only after bytes behind it were read: a byte move to an address register with an extended source |
| Disasm.ListingSplits | amiga-devbench/amiga_devbench/disasm.py:1485-1527 | disassembling m + n instructions is disassembling m and then n of the rest at its address, unless the first part ended in a cut-off instruction |
| Tables.ClientTable.Register | amiga-bridge/client/bridge_client.c:457-481 | stores the clipped name in its own slot, or else in the first free one, or reports a full table |
| Tables.ClientTable.Unregister | amiga-bridge/client/bridge_client.c:495-501 | frees the slot of the name |
| Tables.DaemonList.Add | amiga-bridge/src/client_registry.c:182-200 | replaces the value of a listed name, or appends the clipped name, or ignores it when full |
| Tables.DaemonList.Remove | amiga-bridge/src/client_registry.c:202-218 | closes the gap of a removed entry in place |
| Agreement.RegisterAgrees | amiga-bridge/src/client_registry.c:182-301 | registering a name of at most 33 characters keeps table and list in agreement, also when full |
| Agreement.UnregisterAgrees | amiga-bridge/src/client_registry.c:202-301 | unregistering keeps them in agreement, whatever the name |
| Agreement.LongNameAgrees | amiga-bridge/client/bridge_client.c:457-481 | registering a longer name keeps them in agreement if and only if its first 33 characters are not registered yet, or the table is full and has them with this value |
| Agreement.MisreadAgrees | amiga-bridge/client/bridge_client.c:457-481 | registering a name that is not in the table, when the daemon reads something else: they agree afterwards if and only if with a free slot the kept name and value were read and not registered yet, or with a full table the name that is read is not registered or is with the value that is read |
| Agreement.RegisterTracks | amiga-bridge/src/client_registry.c:182-301 | next to names that are listed and not kept, registering a name takes it up again and leaves the others, unless the list has no room for it |
| Agreement.UnregisterTracks | amiga-bridge/src/client_registry.c:202-301 | unregistering such a name drops it, and leaves the others |
| Agreement.RegistrationIsLost | amiga-bridge/src/client_registry.c:195-195 | next to a list that is full of other names a new name is kept and not listed |
| Agreement.LongNameTwice | amiga-bridge/client/bridge_client.c:457-481 | an input: the same name of 34 characters registered twice |
| Registry.VarReads | amiga-bridge/src/ipc_manager.c:180-198 | the daemon reads back the name and type the client wrote, through strtol with its blanks, sign and limits |
| Registry.HookReads | amiga-bridge/src/ipc_manager.c:261-277 | and the name and the first 63 characters of a hook's description |
| Registry.RegionReads | amiga-bridge/src/ipc_manager.c:288-318 | and the name, address, size and description of a memory region, through strtoul to base 16 and 10 |
| Registry.RunsAgree | amiga-bridge/client/bridge_client.c:448-504 | from a fresh registration, after every run of register and unregister calls and deliveries in any interleaving, once nothing is under way the daemon lists exactly what the client keeps, each name once, also when full |
| RegistryMeaning.RegisterMeans | amiga-bridge/client/bridge_client.c:448-481 | a table of slots is a map: registering changes it at the name and nowhere else, or not at all when the name is new and the table is full |
| RegistryMeaning.UnregisterMeans | amiga-bridge/client/bridge_client.c:483-504 | unregistering takes out the name and nothing else |
| RegistryMeaning.AddMeans | amiga-bridge/src/client_registry.c:182-200 | whatever is listed: adding a name gives it the value, unless it is new and the list has no room, and changes nothing about other names |
| RegistryMeaning.RemoveMeans | amiga-bridge/src/client_registry.c:202-218 | removing a name leaves what is listed under the others |
| RegistryMeaning.RunMeans | amiga-bridge/client/bridge_client.c:448-947 | after every run of calls and deliveries from a fresh registration, the tables are the maps that the calls alone define, with at most 32 variables, 16 hooks and 8 regions, and so are the daemon's lists when nothing is under way |
| Registry.RunKeepsTidy | amiga-bridge/src/ipc_manager.c:180-318 | whatever is called with whatever names, no list holds a name twice, a name of more than 33 characters or with a bar, or more entries than it has room for |
| Registry.CallAgreesIff | amiga-bridge/client/bridge_client.c:448-947 | from agreement, a call with any name that fits the message keeps it if and only if it is safe: it returns at once, its name is clean, a full hook or region table sends nothing, or what the daemon reads changes nothing that matters |
| Registry.FirstUnsafeCall | amiga-bridge/client/bridge_client.c:448-947 | a run of safe calls and deliveries in any interleaving ends in agreement, and one more call ends the agreement if and only if it is not safe |
| Registry.BarInVarName | amiga-bridge/src/ipc_manager.c:184-193 | with a bar among the first 33 characters of a variable's name the sides stay in agreement if and only if the table is full, and the cut name is not registered or is with the type that is read |
| Registry.BlankBehindBar | amiga-bridge/src/ipc_manager.c:184-193 | behind the bar strtol takes blanks and a sign: with "\| 1", "\|+1" or "\|-1" behind the cut name the type read is 1, 1 or -1 |
| Registry.BlankDiverges | amiga-bridge/src/ipc_manager.c:184-193 | an input: with a full table and "a" registered with type 0, registering "a\| 1" leaves type 1 in the daemon's list only |
| Registry.BlankAgrees | amiga-bridge/src/ipc_manager.c:184-193 | an input that agrees: a fresh client registers 33 letters, a bar, a blank and 1, with type 1 |
| Registry.BarInHookName | amiga-bridge/src/ipc_manager.c:265-273 | with such a hook name they do if and only if the table is full, when nothing is sent |
| Registry.BarInRegionName | amiga-bridge/src/ipc_manager.c:292-315 | with such a region name they do if and only if the table is full |
| Registry.BarNameDiverges | amiga-bridge/src/ipc_manager.c:184-193 | an input: a fresh client registers "a\|b" as a variable, a hook or a region, and the daemon does not list what it keeps |
| Registry.RestartedRunAgrees | amiga-bridge/src/client_registry.c:28-35 | a client with empty tables meets lists with old names: after every run of calls with clean names for which the lists have room, the sides agree if and only if every old name was registered or unregistered again |
| Registry.UnnamedStays | amiga-bridge/src/client_registry.c:28-35 | with or without that room: if one old name was neither registered nor unregistered again, they do not agree |
| Registry.RestartedRegistrationIsLost | amiga-bridge/src/client_registry.c:195-195 | without that room they need not: next to a list full of old names a variable is registered in the client only |
| Registry.ClientTables.Perform | amiga-bridge/client/bridge_client.c:448-504 | each call changes the tables and sends the message the run model says; a full hook or region table sends none |
| Registry.ClientEntry.HandleMessage | amiga-bridge/src/ipc_manager.c:180-327 | each message changes the lists as the run model says |
| Clients.RegisterFinds | amiga-bridge/src/client_registry.c:21-59 | registering gives an id, larger than all before for a new client, under which the client is found with empty lists unless it was registered before, and fails exactly when the name is new and every slot is taken; the others stay |
| Clients.UnregisterForgets | amiga-bridge/src/client_registry.c:61-74 | after unregistering the id finds nobody and the others stay |
| Clients.RestartAgrees | amiga-bridge/src/client_registry.c:21-59 | a client that starts with empty tables and registers agrees with the lists it meets if and only if its name was not registered, or its lists were empty |
| Clients.UnregisteredRestartAgrees | amiga-bridge/src/client_registry.c:21-74 | unregistered first, it always registers again and agrees |
| Clients.RestartCatchesUp | amiga-bridge/src/client_registry.c:21-59 | a client that starts again under a name still registered, and runs: in the end the sides agree if and only if its calls named everything that was listed |
| Clients.ClientTable.ClientRegister | amiga-bridge/src/client_registry.c:21-59 | the slot searches compute the specification |
| Clients.ClientTable.ClientFind | amiga-bridge/src/client_registry.c:102-111 | finds the active slot of an id |
| SnoopRing.Monitor.SnoopRecord | amiga-bridge/src/snoop.c:87-134 | a recording that is not interrupted: the ring refines the queue that drops its oldest element, and the slot taken shows the event, field by field: caller unchanged, function, arguments and result cut to 19, 39 or 59 characters, a null one empty |
| SnoopNesting.AnyRun | amiga-bridge/src/snoop.c:575-598 | however recordings and drains interleave, between the look at an entry, its line, and the load and the store of the read index too: the events counted are those recorded, in order, the indices and counters are those of a queue, the ordinals sent increase, and as long as no store loses entries every event is sent, dropped or buffered |
| SnoopNesting.StepBalances | amiga-bridge/src/snoop.c:575-598 | a store loses entries if and only if the number of drops since its load is no multiple of 128, and no other step does |
| SnoopNesting.DrainOneIs | amiga-bridge/src/snoop.c:575-598 | one iteration of the drain, with any recordings in between, sends the oldest entry, and is sending it and then recording if and only if nothing was dropped meanwhile |
| SnoopNesting.FullRingIsLost | amiga-bridge/src/snoop.c:589-594 | an input: two recordings between the load and the store of a drain of the full ring make it look empty |
| SnoopNesting.NestedRun | amiga-bridge/src/snoop.c:87-134 | however recordings and drains interleave, as long as no recording is overtaken by 128 others: every buffered entry that is not under way shows its event field by field, with the tick of its ordinal if and only if the event count had that value when it was filled, and the line a drain is about to send is that of its event, unless that is under way or 128 events old |
| SnoopNesting.UninterruptedRecord | amiga-bridge/src/snoop.c:87-134 | the two parts of a recording in a row are one step of the queue |
| SnoopNesting.InterruptedTick | amiga-bridge/src/snoop.c:133-133 | an input: a recording interrupted by one more gets that one's tick |
| SnoopNesting.Ring.ReserveSlot | amiga-bridge/src/snoop.c:94-105 | the part between Disable and Enable |
| SnoopNesting.Ring.FillSlot | amiga-bridge/src/snoop.c:107-134 | the part after Enable: the slot shows the event field by field, with the event count of that time as the tick |
| SnoopNesting.Ring.TakeEntry | amiga-bridge/src/snoop.c:581-582 | the test of the drain's loop, apart from its count of eight, and the entry it takes |
| SnoopNesting.Ring.SendEntry | amiga-bridge/src/snoop.c:584-592 | the line is what the slot holds now |
| SnoopNesting.Ring.LoadTail | amiga-bridge/src/snoop.c:594-594 | the read index is loaded |
| SnoopNesting.Ring.StoreTail | amiga-bridge/src/snoop.c:594-594 | and stored, advanced by one from what was loaded, whatever it has become meanwhile |
| SnoopRing.Monitor.SnoopDrain | amiga-bridge/src/snoop.c:575-598 | sends the oldest entries in order, at most eight; each line shows the event of its ordinal field by field |
| SnoopRing.Monitor.SnoopStart | amiga-bridge/src/snoop.c:467-475 | starting empties the ring and the counters; starting twice changes nothing |
| SnoopRing.Monitor.SnoopStatus | amiga-bridge/src/snoop.c:611-627 | the index formula is the length of the queue |
| SnoopRing.DrainSends | amiga-bridge/src/snoop.c:575-598 | a drain sends the next ordinals in order, eight or all that are buffered, and what is left are the entries behind them |
| SnoopRing.ShownWhole | amiga-bridge/src/snoop.c:107-134 | an event whose texts fit is stored unchanged, but for null texts that become empty |
| SnoopRing.EveryRun | amiga-bridge/src/snoop.c:87-134 | after every run the events counted are those recorded since the monitor was started, and at most 127 entries are buffered, which show the latest of them in order, field by field; events = sent + dropped + buffered; the ordinals sent increase, and the gaps before and between them, up to the oldest buffered event, add up to the drops |
| SnoopRing.TicksAreOrdinals | amiga-bridge/src/snoop.c:133-133 | below 2^32 events the ticks of buffered entries are their ordinals |
| SnoopRing.Monitor.SnoopStop | amiga-bridge/src/snoop.c:511-515 | stopping keeps what is buffered and the counters |

## Left out

- `ab_send_mem`, which takes the first message that arrives for its own reply, and shutdown, disconnect and initialising again.
- `var_send_and_wait`, and the temporary port that `ipc_send_to_client` deletes on a timeout; the daemon's own pool of eight messages is part of this.
- Handlers.ForwardIsAnsweredIff: the same assumptions about the client as below, and a daemon that looks at least twice for the reply; the original looks twenty times.
- The contents of message bodies apart from an identifying number in `Messages`, and the messages kept on the stack for LISTRESOURCES and GETPERF.
- Signals in `Messages`: the pauses of `ab_poll` and `ab_init`. In `Debugger` CTRL_E is left out, and a target that waits for CTRL_F on its own is one that runs no instruction until it takes the signal.
- HookCalls.HookCompletes: the client is taken to run as far as it can between two polls of the daemon, and no other message of the daemon is in the client's port.
- HookCalls.PostedHookCompletes: the same two assumptions.
- Debugger registers, condition codes, caches and vector tables; each command and each handler is one step, and the target has no TRAP #15 of its own.
- Debugger.BreakpointHitStops: does not claim that the instruction runs only once when a DBGSTEP follows, because DBGSTEP starts again at the breakpoint.
- Debugger.StepExecutesOneInstruction: a detach or a DBGBREAK in the middle of the step, and a command that plants a breakpoint on the very instruction, are excluded; `Debugger.PlantingBreaksStep` shows what the second does.
- Palette, planar and hexadecimal screenshot paths, the buffering of screenshot lines in memory or a file, and locking.
- DirListing.FsListDir: entry texts are cut at 127 characters as the buffer ends them; the directory is the list of entries one examination gives.
- DirListing.ListDirAll: the directory stays as it is between pages, every page is answered by the first directory line that arrives, and the path has no bar and no control character; names have at most 107 characters and sizes 32 bits, as AmigaDOS reports them.
- Integer texts that Python's `int` accepts beyond an optional sign and decimal digits (blanks, underscores, other scripts).
- AmiForge's side of the slots, envelopes and pages, which is not part of this repository; a slot is taken to append what an MCPBUF command unescapes to.
- `field_unescape`, `records`, `keyvalues` and the tools built on them.
- Mnemonic texts, operands and library call names of the disassembler: an item is its address, its bytes and whether it was decoded.
- Lost registry messages: `send_simple` drops a message when the pool is exhausted; runs are over messages that were sent.
- Registry.RunsAgree: names of at most 33 characters without a bar; `Registry.FirstUnsafeCall` is about the others. Types, addresses and sizes have 32 bits, as in the original.
- Registry.CallAgreesIff: names for which the client's 256-byte message buffer is too short are excluded; `sprintf` would write past it.
- Registry.RestartedRunAgrees: without the room, naming every old name is necessary (`Registry.UnnamedStays`) and not sufficient (`Registry.RestartedRegistrationIsLost`).
- Clients.RegisterFinds: ids are counted without wrapping at 2^32.
- SnoopRing.Monitor.SnoopRecord: the entry is filled in the same step in which its slot is taken; the original fills it after Enable, as `SnoopNesting.Ring` has it.
- SnoopRing.Monitor.SnoopDrain: no recording comes in between; `SnoopNesting` has them anywhere.
- SnoopNesting.NestedRun: a recording overtaken by 128 others, and starting or stopping the monitor while recordings are under way; a line is read from its slot in one step, and an entry under way can be sent with its slot's old contents. At most eight entries a call are those of `SnoopRing.Monitor.SnoopDrain`.
- SnoopRing.TicksAreOrdinals: from 2^32 events on, ticks repeat.
- The rest of the daemon and host: inspectors, device and socket I/O, user interface, input, builder and deployer, configuration, and the scripts.
