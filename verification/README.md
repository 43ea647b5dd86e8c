# ApiScope in Dafny

ApiScope attaches to a Windows process as a debugger, maps a hook library into it, redirects chosen API
functions to handlers in that library, and prints what the handlers record. This project models the parts of
it where a mistake would corrupt the target or lose an event, and proves what they promise.

- **The trace ring** (`TraceRing`, `RingSafety`, `RingHistory`). Any number of hook threads and one reader
  share a ring of slots. Each interlocked operation is one step; a payload copy is one step per byte, so a
  torn read is expressible. The capacity is any number from 2 up. The state also keeps a claim log and a
  delivery log. For every run: the delivery log is a prefix of the claim log, no two copies meet in a slot,
  an event is dropped only when the ring is full, numbers are conserved, and a retry is always paid for by
  another thread's claim.
- **The code that makes those steps** (`RingCode`). `EmitTraceEvent`, its claim loop and `TryReadRing` as
  methods of a class whose fields are the shared words. The object carries the run that led to its state;
  its invariant says that this is a run of the step system from an initial ring. Between any two interlocked
  operations the other threads take any number of steps. Every method extends the run, returns, and says which
  steps its own part of the run holds: a drop goes through a full ring, an emission publishes, exchanges
  `wakePending` and signals in that order, a failed read saw an unpublished head.
- **The consumer** (`Pipeline`, `PipelineSafety`, `PipelineDrain`, `EndToEnd`, `HandlerToOutput`). Reader
  loop, bounded queue, writer loop, wake and stop events, as a state machine around the ring. Output refines
  the ring's delivery log; an event waits unannounced exactly when a failed signal was taken back; an orderly
  stop ends, and what is rendered is what the hook handlers put into the claimed events, every other accepted
  event being dropped and reported.
- **The event format** (`EventCodec`, `EventBuilder`, `TraceEvents`, `EventParser`, `WireLayout`). The format is
  described by what a buffer says, and a second time in plain numbers and characters, which is proved the same. The in-place builder and the parser are each proved against it: the builder
  keeps exactly the greedy sublist of valid, fresh, fitting fields; the parser accepts exactly the
  well-formed buffers; and bytes left over from an older event do not matter.
- **Hooks in memory** (`Trampoline`, `TargetMemory`, `HookManager`, `HookRestoration`, `Unloading`,
  `OverlappingUnload`). A small processor model gives meaning to copied prologues and to the push/mov/ret jump.
  Patching, trampolines and removal act on an address-to-byte map, with every system call free to fail. A
  trampoline does what the bytes it displaced did; removal in reverse order restores the code even when patches
  overlap, and for any other order it is stated exactly which bytes come back; exactly two failures leave a
  patch behind.
- **When hooks may come out** (`Quiescence`, `CleanStop`). Threads are stacks of frames. The active-call
  counter equals the number of handler bodies on all stacks, so a passed check means that no thread runs or
  will return into anything that removal frees.
- **The session** (`Forwarders`, `ModuleNames`, `Transport`, `Session`, `HookLog`, `SessionStory`, `EventLoop`). Module and hook
  records under load and unload events, with what each event does to memory and when it fails, the cleanup, and
  the recursive resolution of forwarded exports. A log of what went on and came off is kept through any sequence
  of events, while the program runs and maps and unmaps code, and says which code the cleanup leaves as it was
  mapped: all of it if no module was unloaded, or if removals succeed and the addresses that definitions can
  resolve to are apart.
- **Three transformations** (`CommandLine`, `Relocation`, `RelocationDirectory`, `JsonText`). Windows argument
  quoting against the Microsoft C argument rules, the section copy and base relocation loops of the manual mapper
  with directories written from lists of pages and offsets, and JSON string escaping against section 7 of RFC 8259.

`Bytes` and `Wrappers` hold little-endian words, in-place overwrites and an option type.
`dafny verify dfyconfig.toml` checks everything.

Where the code and the obvious reading of its intent part, the model follows the code and the difference is
a lemma or method of its own:

- A failed `NtSetEvent` takes `wakePending` back and can strand an event (`EndToEnd.FailedSignalStrandsAnEvent`).
  With no producer at work, a parked reader misses a waiting event exactly if that happened and neither the
  reader nor another signal came since (`PipelineSafety.LostWakeupIffReset`).
- A hook that fails after its patch was written stays patched (`HookRestoration.RefusedFlushLeavesPatch`), and
  the saved bytes come back exactly when the patch had changed nothing (`HookRestoration.LateFailureKeepsPatch`).
- Unloading a module removes its hooks oldest first, which can leave a patch in code that stays, though every
  system call succeeds (`OverlappingUnload.UnloadLeavesPatch`). A byte comes back exactly if the newest hook
  removed there went on while the byte was as at first (`Unloading.UnloadRestoresIff`, for any order of
  removal `HookRestoration.OrderRestoresIff`, and for any mix of loads and unloads
  `HookLog.MixedRestoresIff`).
- The forwarder loop check compares strings in which module and export names are joined by `!`, so a name with
  that character can make it see a loop that is not there (`Forwarders.LoopCheckCanMisfire`). It spoils an
  answer exactly when two different exports of the chain are joined to one string
  (`Forwarders.MisfiresIffConfused`); for module names without `!` it never does.
- The relocation range check adds in 32 bits and the write does not (`Relocation.WrappedTargetEscapes`). For any
  image, directory and distance the walk writes outside the image exactly when the first target outside it, as
  the walk comes to read it and computed without wrapping, wraps to one inside (`Relocation.EscapesIffFooled`).
  The walk reads each page address anew, so a directory that relocates itself can look harmless and escape all
  the same (`Relocation.SelfRelocationEscapes`). One that does not can be judged by the bytes it has at first
  (`Relocation.EscapesIffParsed`).
- The program name is quoted like any other argument although it is parsed by a simpler rule. The argument
  vector survives exactly when the program name holds no quote, and no trailing backslash if it gets quoted
  (`CommandLine.ArgumentsRoundTrip`).

## Model

| member | source | states |
|---|---|---|
| TraceRing.IndexIsModulo | src/apiscope/trace_session.cpp:182-183 | the slot index of the step system is the position modulo the capacity |
| TraceRing.MaskIsModulo | src/apiscope-hooks/trace_transport.cpp:278 | the slot index the code masks out is the position modulo the power-of-two capacity |
| TraceRing.IndexInjective | src/include/trace_ring.h:23-35 | two positions less than a lap apart never share a slot |
| RingSafety.SequenceVerdict | src/apiscope-hooks/trace_transport.cpp:279-291 | what each outcome of comparing a slot's sequence with a position means for the claim log: full, free or already taken |
| RingSafety.ProducerInv | src/apiscope-hooks/trace_transport.cpp:258-305 | every step of every producer keeps the ring invariant |
| RingSafety.ReaderInv | src/apiscope/trace_session.cpp:175-195 | every step of the reader keeps the ring invariant, also while released runs ahead of dequeuePosition |
| RingSafety.NextInv | src/include/trace_ring.h:18-35 | every step of anyone keeps the invariant tying slots, sequence words, producers, reader and both logs together |
| RingHistory.ReachableInv | src/include/trace_ring.h:18-35 | the invariant and the numbering invariant hold after every run from a zeroed ring |
| RingHistory.DeliveredIsPrefixOfClaims | src/apiscope/trace_session.cpp:175-195 | in every reachable state the i-th delivered event is the i-th claimed one: no loss, duplicate, reordering or tear, whatever stale bytes the slot held |
| RingHistory.CopiesAreExclusive | src/apiscope-hooks/trace_transport.cpp:294-295 | no two producers copy into one slot at once and the reader never copies a slot that is being written |
| RingHistory.DropOnlyWhenFull | src/apiscope-hooks/trace_transport.cpp:276-292 | claimed minus released is between 0 and the capacity, and a producer takes the drop branch exactly when it is the capacity |
| RingHistory.NumbersAreConserved | src/apiscope-hooks/trace_transport.cpp:272-292 | eventSequence equals enqueuePosition plus droppedEvents plus the numbered producers in flight |
| RingHistory.DeliveredSequences | src/apiscope-hooks/trace_transport.cpp:272 | delivered sequence words are pairwise distinct and increase along each thread's events |
| RingHistory.RetriesAreOthersClaims | src/apiscope-hooks/trace_transport.cpp:276-292 | lock freedom: a producer's retries are bounded by the claims others made since it got its number |
| RingHistory.AloneNeverRetries | src/apiscope-hooks/trace_transport.cpp:276-292 | a producer that runs alone leaves the claim loop in its first round |
| RingCode.OthersKeep | src/apiscope-hooks/trace_transport.cpp:276-303 | whatever steps the other threads add to the run, they keep the ring invariant and leave this thread's claims and private state alone |
| RingCode.SharedRing.constructor | src/apiscope/trace_session.cpp:105-112 | the initialisation loop gives an initial ring: slot i carries sequence i, all counters are zero |
| RingCode.SharedRing.ClaimLoop | src/apiscope-hooks/trace_transport.cpp:276-292 | under arbitrary interference the loop ends; it claims this event once more at the end of this thread's claims, or it looked at its slot in a state where the ring was full and counts a drop |
| RingCode.SharedRing.CopyPayload | src/apiscope-hooks/trace_transport.cpp:294 | the copy of header.size bytes proceeds byte by byte under interference and changes no claim |
| RingCode.SharedRing.PublishAndWake | src/apiscope-hooks/trace_transport.cpp:295-303 | in this order: the slot is published, wakePending is exchanged, whoever turned it on signals, and takes it back if the signal fails |
| RingCode.SharedRing.EmitTraceEvent | src/apiscope-hooks/trace_transport.cpp:258-305 | a wrong ring or event header changes nothing; an accepted event is stamped, claimed exactly once, published and announced, or it found the ring full and is counted as dropped |
| RingCode.SharedRing.ClaimCopyAndAnnounce | src/apiscope-hooks/trace_transport.cpp:274-305 | the part after the number: claimed once, copied, published and announced, or dropped through a full ring |
| RingCode.SharedRing.TryReadRing | src/apiscope/trace_session.cpp:175-195 | a successful read saw a published head and appends to the delivery log exactly the next claimed event; a failed one saw an unpublished head and changes nothing of the reader's |
| Pipeline.RingStep | src/apiscope/trace_session.cpp:403-497 | every step of the whole system is a step of the ring or leaves the ring alone |
| PipelineSafety.StepInv | src/apiscope/trace_session.cpp:403-497 | every step of producers, reader loop, writer loop and stopper keeps the pipeline invariant |
| PipelineSafety.OutputRefinesRing | src/apiscope/trace_session.cpp:415-428 | rendered, held by the writer, queued and held by the reader together are the valid delivered events in order; the queue never exceeds 4096 |
| PipelineSafety.BatchesAreFull | src/apiscope/trace_session.cpp:430-447 | the reader goes on to report drops after 256 events, not before unless it finds none |
| PipelineSafety.NoLostWakeup | src/apiscope-hooks/trace_transport.cpp:295-303 | a parked reader with a published head has a signal pending, or a producer still owes the exchange or the signal, or a signal has failed |
| PipelineSafety.LostWakeupIffReset | src/apiscope-hooks/trace_transport.cpp:295-303 | with no producer mid-emission, a parked reader and a non-empty ring: no signal is given iff a failed signal was taken back since the reader last looked or a signal last came |
| PipelineSafety.NoLostWakeupAtRest | src/apiscope/trace_session.cpp:446-468 | so before any signal fails a parked reader and a non-empty ring imply a signalled event |
| PipelineSafety.NeverBothAsleep | src/apiscope/trace_session.cpp:420-427 | reader and writer never sleep on the queue together, and a sleeper whose condition holds has a notification coming |
| PipelineSafety.WriterLeavesLast | src/apiscope/trace_session.cpp:480-497 | the writer exits only after everything delivered and valid is rendered and the reader has finished |
| PipelineDrain.DrainDecreases | src/apiscope/trace_session.cpp:430-478 | after a stop with no producers left, every step lowers one lexicographic measure |
| PipelineDrain.DrainCanMove | src/apiscope/trace_session.cpp:403-497 | until both threads have left, one of them can move |
| PipelineDrain.DrainTerminates | src/apiscope/trace_session.cpp:387-401 | every infinite schedule of the draining system, with finitely many spurious wake-ups, comes to rest with both threads gone |
| PipelineDrain.DrainIsComplete | src/apiscope/trace_session.cpp:387-413 | unless a wait failed, everything claimed was delivered, everything valid rendered, and the reported drop count is droppedEvents |
| EndToEnd.StampKeepsMeaning | src/apiscope-hooks/trace_transport.cpp:272 | writing the sequence number into the header does not change what an event says, nor its flags, thread and time |
| EndToEnd.EveryClaimedEventIsRendered | src/apiscope/trace_session.cpp:371-401 | every schedule after an orderly stop ends, and what was rendered is what the claimed events report (parts, flags, thread and time), in claim order |
| EndToEnd.FailedSignalStrandsAnEvent | src/apiscope-hooks/trace_transport.cpp:300-302 | a reachable state in which the reader is parked, an event is published, nobody is mid-emission and no signal is given |
| EndToEnd.SignalFails | src/apiscope-hooks/trace_transport.cpp:298-303 | whatever the other producers do, a failed signal leaves the parked reader without one, and strands the event if they are idle |
| HandlerToOutput.RunOrigins | src/apiscope-hooks/trace_transport.cpp:272-288 | in every run each claim and each event in flight is the numbered copy of one event that a handler passed in, and every number was given to one |
| HandlerToOutput.EveryAcceptedEventIsRendered | src/apiscope/trace_session.cpp:371-401 | from any run to an orderly stop: the output says, in claim order, what the handlers put into the claimed events, and accepted events number claims plus reported drops |
| HandlerToOutput.ClaimsSayWhatWasBuilt | src/apiscope-hooks/trace_transport.cpp:258-272 | if each accepted event reports what its handler meant, the claims report what their handlers meant |
| EventCodec.SerializeInjective | src/apiscope/trace_renderer.cpp:202-230 | field lists with the same bytes are the same list |
| EventCodec.LayoutIsUnambiguous | src/apiscope/trace_renderer.cpp:168-239 | a buffer is laid out as at most one event |
| EventCodec.StaleTailIsIgnored | src/apiscope-hooks/trace_transport.cpp:294 | buffers that agree on the first header.size bytes say and report the same, whatever an older event left behind |
| WireLayout.EventBytes | src/include/trace_protocol.h:6-66 | an event, byte for byte: a buffer says something iff magic, version, sizes, names, fields and values stand at their offsets, in little-endian words, within the limits, with these characters |
| WireLayout.NameAlphabets | src/apiscope-hooks/trace_transport.cpp:38-73 | a module, API or field name is accepted iff it has 1 to 63 characters of its spelled-out alphabet |
| WireLayout.ValueKinds | src/apiscope/trace_renderer.cpp:128-165 | which values the parser takes for each kind number |
| WireLayout.ValueImages | src/apiscope-hooks/trace_transport.cpp:191-219 | the kind number and the bytes of each typed value, numbers low byte first, negative ones in two's complement |
| WireLayout.HeaderBytes | src/apiscope-hooks/trace_transport.cpp:265-271 | the emitter's header check on the bytes: magic, version 5 and a size from the header and names up to 1024 |
| WireLayout.HeaderExtras | src/include/trace_protocol.h:14-43 | where number, time and thread are, and which bit is which flag |
| WireLayout.NtCreateFileParses | src/apiscope-hooks/hooks/ntdll_nt_create_file.cpp:4-32 | an event of NtCreateFile in ntdll.dll is accepted, whatever fields the handler tried to add |
| Bytes.LowByteFirst | src/include/trace_protocol.h:30-56 | words of two and four bytes are stored low byte first |
| EventBuilder.GetBoundedStringLength | src/apiscope-hooks/trace_transport.cpp:21-36 | succeeds exactly for strings of 1 to maximum characters, with their length |
| EventBuilder.IsValidFieldName | src/apiscope-hooks/trace_transport.cpp:38-55 | accepts exactly the good field names |
| EventBuilder.IsValidIdentifier | src/apiscope-hooks/trace_transport.cpp:57-73 | accepts exactly the good module and API names |
| EventBuilder.CustomMemCpy | src/apiscope/memory_utils.cpp:28-37 | the loop overwrites exactly the destination range with the source bytes |
| EventBuilder.ValueRoundTrip | src/apiscope-hooks/trace_transport.cpp:191-219 | every typed value is encoded acceptably for the consumer and read back unchanged |
| EventBuilder.CaptureTraceBuffer | src/apiscope-hooks/trace_transport.cpp:221-249 | a preview never claims more bytes than asked for or than fit, carries the status of the bypassed read, is empty for a null or empty buffer, and empty with the not-configured status before the transport is set up |
| EventBuilder.GreedyMeaning | src/apiscope-hooks/trace_transport.cpp:93-141 | the outcome of all appends: exactly the attempts with a good fresh name that fitted, FieldError iff some name was bad, Truncated iff some good one did not fit |
| TraceEvents.TraceEvent.InitializeTraceEvent | src/apiscope-hooks/trace_transport.cpp:165-189 | good names give an empty event of those names with no flags; bad ones leave a buffer that no parser accepts |
| TraceEvents.TraceEvent.HasTraceField | src/apiscope-hooks/trace_transport.cpp:79-91 | the byte-level walk finds a name iff a field of that name was appended |
| TraceEvents.FieldHeaderAt | src/apiscope-hooks/trace_transport.cpp:82-88 | the bytes at a field's offset are its header, name and value |
| TraceEvents.FieldKeepsLayout | src/apiscope-hooks/trace_transport.cpp:126-139 | the buffer after an accepted append is laid out as the old event with the field at its end |
| TraceEvents.TraceEvent.AppendTraceField | src/apiscope-hooks/trace_transport.cpp:93-141 | succeeds iff the name is good and fresh and the field fits; a rejected append changes only the flag that says why |
| TraceEvents.TraceEvent.AddTrace | src/apiscope-hooks/trace_transport.cpp:191-256 | each typed wrapper appends the value's encoding |
| TraceEvents.BuildEvent | src/apiscope-hooks/trace_transport.cpp:165-256 | a handler's whole sequence of calls gives a well-formed event that reports the greedy outcome, its two flags, the thread and the time |
| EventParser.ParseField | src/apiscope/trace_renderer.cpp:204-229 | one round of the field loop reads exactly the next field of any event the buffer can say, or shows there is none |
| EventParser.ParseTraceEvent | src/apiscope/trace_renderer.cpp:168-239 | accepts iff the buffer is a well-formed event of the received size, and returns what it says |
| EventParser.ReadReport | src/apiscope/trace_renderer.cpp:285-357 | everything that is rendered of an event: its parts, its flags, its thread and time |
| EventParser.BuildThenParse | src/apiscope/trace_renderer.cpp:168-239 | what a handler builds is accepted iff its names are good; then it reads as exactly the kept fields with typed values intact, truncated iff some good field did not fit, with a field error iff some name was bad, and its thread and time |
| CommandLine.QuoteWindowsArgument | src/apiscope/cli_options.cpp:68-93 | the quoting loop computes the quoted form of the argument |
| CommandLine.LeftAlone | src/apiscope/cli_options.cpp:68-72 | an argument is left as it is iff it is not empty and holds none of five characters |
| CommandLine.QuoteRules | src/apiscope/cli_options.cpp:74-92 | the reader that quoting is judged by: 2n backslashes and a quote are n and a delimiter, one more makes the quote literal, and so does another quote inside quotes |
| CommandLine.CharacterRules | src/apiscope/cli_options.cpp:74-92 | elsewhere backslashes stand for themselves, and outside quotes a space or tab ends the argument |
| CommandLine.ProgramRules | src/apiscope/cli_options.cpp:248-257 | in the program name a backslash is an ordinary character, also in front of a quote |
| CommandLine.BlanksAreSkipped | src/apiscope/cli_options.cpp:248-257 | spaces and tabs between arguments do not matter, nor does anything behind a NUL |
| CommandLine.BuildWindowsCommandLine | src/apiscope/cli_options.cpp:248-257 | the loop joins the quoted arguments by single spaces |
| CommandLine.QuoteParses | src/apiscope/cli_options.cpp:68-93 | a quoted argument parses back to itself under the 2n and 2n+1 backslash rules and leaves the rest unread |
| CommandLine.TailSplits | src/apiscope/cli_options.cpp:248-257 | all arguments after the first are recovered, empty ones, quotes and trailing backslashes included |
| CommandLine.ArgumentsRoundTrip | src/apiscope/cli_options.cpp:248-257 | for NUL-free arguments the target sees the same vector iff the program name holds no quote and no trailing backslash when quoted |
| Trampoline.StepsIsDeterministic | src/apiscope/instruction_decoder.cpp:5-48 | with a decoder that looks no further than the instruction, a processor state has at most one successor |
| Trampoline.StubTarget | src/apiscope/hook_manager.cpp:328-340 | ret finds the full 64-bit target although push sign-extends its immediate |
| Trampoline.StubJumps | src/apiscope/hook_manager.cpp:234-245 | the three instructions reach the target with registers and rsp intact and only the eight bytes below rsp changed |
| Trampoline.BoundaryChain | src/apiscope/hook_manager.cpp:180-204 | instruction boundaries form one chain: whatever boundary lies past one lies past the instruction that starts there |
| Trampoline.BoundaryIsLocal | src/apiscope/hook_manager.cpp:180-204 | a boundary depends only on the bytes in front of it |
| Trampoline.StraightRuns | src/apiscope/hook_manager.cpp:231-232 | a run of position-independent instructions has the same effect wherever its bytes lie |
| Trampoline.TrampolineSimulates | src/apiscope/hook_manager.cpp:219-276 | from any state, running the trampoline ends where running the displaced bytes ends, in the same state but for the eight bytes below rsp |
| Trampoline.PatchReachesHandler | src/apiscope/hook_manager.cpp:328-369 | a call of the patched function reaches the handler with registers, rsp and arguments intact |
| HookManager.SafePrefixSize | src/apiscope/hook_manager.cpp:177-210 | the decode loop returns the least whole-instruction prefix of at least 14 bytes, at most 28, or 0 iff there is none that can be moved |
| HookManager.Process.CalculatePatchSize | src/apiscope/hook_manager.cpp:167-217 | that size for the 32 bytes at the address, or 0 if they cannot be read |
| HookManager.Process.AbsoluteJump | src/apiscope/hook_manager.cpp:234-245 | filling the two double words into the template gives the jump to the target |
| HookManager.Process.CreateTrampoline | src/apiscope/hook_manager.cpp:219-276 | the trampoline holds the displaced bytes and a jump back behind them; it succeeds iff its four system calls do |
| HookManager.Process.CreateBypassTrampoline | src/apiscope/hook_manager.cpp:278-310 | succeeds iff the function can be moved, memory can be had and the calls succeed; a failure leaves all memory as it was |
| HookManager.Process.PatchFunction | src/apiscope/hook_manager.cpp:328-369 | writes the padded jump iff the first two calls succeed, reports success iff all four do |
| HookManager.Process.Connect | src/apiscope/hook_manager.cpp:49-85 | saving, publishing the trampoline's address and patching: hooked memory, as HookManager.SlotLeadsToTrampoline reads it, or the exact state each failure leaves |
| HookManager.Process.HookFunction | src/apiscope/hook_manager.cpp:13-91 | installed iff the function can be hooked and twelve calls succeed; then memory and record are as stated, and the eight bytes at the handler's slot read as the trampoline's address; a failure keeps everything but the slot unless the patch was written |
| HookManager.SlotLeadsToTrampoline | src/apiscope/hook_manager.cpp:71-85 | in hooked memory the slot reads as the trampoline's address, so a handler's call of the original arrives there, and the patch behind the jump is 0x90 |
| HookManager.PatchedWithStub | src/apiscope/hook_manager.cpp:328-369 | the hooked function starts with the jump to its handler |
| HookManager.Process.UnhookFunction | src/apiscope/hook_manager.cpp:93-149 | exactly when it succeeds, the memory after it, and the three states a failure can leave |
| HookManager.RemovalIs | src/apiscope/hook_manager.cpp:93-165 | byte by byte, what taking a hook off or releasing it leaves: saved bytes back, slot zero, trampoline unmapped, the rest untouched |
| HookManager.Process.ReleaseUnloadedHook | src/apiscope/hook_manager.cpp:151-165 | the slot is zeroed, no byte of the trampoline is mapped any more, and every other byte is as it was |
| HookManager.Process.RemoveHooks | src/apiscope/debug_session.cpp:346-351 | the reverse loop, if all calls succeed, undoes the hooks newest first and leaves no trampoline mapped; with no call refused it is clean iff each hook can be removed in its turn |
| HookManager.NoTrampolineLeft | src/apiscope/debug_session.cpp:346-351 | after all removals no byte of any trampoline is mapped |
| HookRestoration.HookIsTransparent | src/apiscope/hook_manager.cpp:13-91 | in memory after a successful HookFunction, the function enters the handler and the trampoline does what the original prologue did |
| HookRestoration.RecordedBytesAreSafe | src/apiscope/hook_manager.cpp:55-67 | the bytes a hook saves are whole instructions that can be moved |
| HookRestoration.CleanupRestores | src/apiscope/debug_session.cpp:346-351 | after any history of hooks with the program running in between, reverse removal restores every code byte, even where patches overlap |
| HookRestoration.AnyOrderRestores | src/apiscope/hook_manager.cpp:93-149 | without overlaps any order of removal restores the code |
| HookRestoration.LastRemovalDecides | src/apiscope/hook_manager.cpp:93-149 | after any sequence of removals a byte is what the last removal over it wrote |
| HookRestoration.OrderRestoresIff | src/apiscope/hook_manager.cpp:93-149 | for any history and any order of removal, a code byte comes back iff the last hook of the order over it went on while the byte was as at first |
| HookRestoration.OldestFirstFails | src/apiscope/hook_manager.cpp:93-149 | the case of two overlapping patches: removing the older first restores a byte iff the first patch had not changed it |
| HookRestoration.LateFailureKeepsPatch | src/apiscope/hook_manager.cpp:80-85 | a hook that failed after the write leaves the old code iff the patch equals it |
| HookRestoration.HookWithoutFlush | src/apiscope/hook_manager.cpp:363-366 | whenever only the flush is refused, hooking reports failure and the function stays patched |
| HookRestoration.RefusedFlushLeavesPatch | src/apiscope/hook_manager.cpp:363-366 | a concrete process in which that happens |
| Unloading.UnloadRestoresIff | src/apiscope/debug_session.cpp:190-204 | unloading a module: a byte of code that stays comes back iff the newest hook undone there went on while it was as at first; where none is undone it does not change |
| Unloading.UnloadRestoresApart | src/apiscope/debug_session.cpp:190-204 | where patches lie apart, undoing a hook in unload order restores its bytes |
| Unloading.UndoingStep | src/apiscope/debug_session.cpp:190-204 | whatever fails, the loop has written back the saved bytes of some hooks of the module, in order, and of all of them if nothing failed |
| Unloading.NoneGivenBackIsLeft | src/apiscope/debug_session.cpp:190-204 | after an unload no byte of a dropped hook's trampoline is mapped |
| HookLog.MixedRestoresIff | src/apiscope/debug_session.cpp:184-206 | installations and removals mixed at will, code mapped at any time: a byte last removed from is as when it was mapped iff that hook went on while it was so; one not hooked since stays |
| HookLog.NestedRestores | src/apiscope/debug_session.cpp:346-351 | hooks that come off newest first at a byte give it back as it was mapped, however they overlap and whatever came and went before |
| HookLog.SoloRestores | src/apiscope/debug_session.cpp:190-204 | hooks of which never two are over a byte at a time restore it in any order |
| OverlappingUnload.SharedByteStays | src/apiscope/debug_session.cpp:190-204 | with hooks on two functions four bytes apart, unloading leaves a byte of the first patch |
| OverlappingUnload.UnloadLeavesPatch | src/apiscope/debug_session.cpp:190-204 | a concrete run from nops, all calls succeeding: both hooks are gone and part of a patch is still there |
| Quiescence.CounterCountsBodies | src/include/api_hook.h:12-21 | in every run ActiveHookCalls is the number of handler bodies on all stacks plus those of threads that ended inside one |
| Quiescence.CheckedStack | src/apiscope/debug_session.cpp:382-440 | if the check passes, a stack holds application code only, and none of it in a patched range |
| Quiescence.CheckIsExact | src/apiscope/debug_session.cpp:382-440 | while hooks are in, the check passes iff no activation is instrumented and no count was lost |
| Quiescence.NextKeepsInv | src/include/api_hook.h:12-29 | every step of every thread, every installation and the removal keep the stack and counter invariant |
| Quiescence.SafeRemoval | src/apiscope/debug_session.cpp:382-440 | in any run, after a removal that passed the check no thread ever again has a handler, trampoline, bypass or patched entry on its stack, and none was caught inside a restored function |
| CleanStop.PassedCheck | src/apiscope/debug_session.cpp:403-439 | what IsCleanupQuiescent reads off the thread snapshot establishes the check of the model |
| CleanStop.CleanStopIsSafe | src/apiscope/debug_session.cpp:346-360 | a clean stop restores the code, also after the transport and the hook image are freed, and leaves no thread at, or returning to, an address where the debugger's code was |
| CleanStop.TearDownKeepsCode | src/apiscope/trace_session.cpp:302-369 | clearing the transport's variables and freeing ring, bypasses and image leaves restored code restored |
| CleanStop.PutExtendsHistory | src/apiscope/debug_session.cpp:334-340 | each hook the session records extends the history that cleanup undoes |
| Forwarders.NormalizeTakesFileName | src/apiscope/hook_registry.cpp:29-40 | the normalised name is the lower-cased part behind the last separator |
| Forwarders.NormalizeIsIdempotent | src/apiscope/hook_registry.cpp:29-40 | normalising gives a normal name and leaves normal names alone |
| Forwarders.ForwarderNames | src/apiscope/debug_session.cpp:260-270 | a forwarder names the module before its last dot and the export behind it |
| ModuleNames.NormalizeSpelled | src/apiscope/hook_registry.cpp:29-40 | the normalised name is the part behind the last backslash or slash, letter by letter in small letters |
| ModuleNames.RecordedSpelled | src/apiscope/debug_session.cpp:144-152 | a loaded module is known by that form of its path's file name, or of the name in its image if the path ends in none |
| ModuleNames.NtdllIsRecorded | src/apiscope/debug_session.cpp:144-163 | a path that ends in NTDLL.DLL gives the name "ntdll.dll" that sets up the transport |
| ModuleNames.ForwarderLeads | src/apiscope/debug_session.cpp:231-267 | a forwarder in any case leads to the library in small letters, with ".dll" if it has no dot, and to the export as written |
| ModuleNames.ForwarderIsDead | src/apiscope/debug_session.cpp:260-267 | it leads nowhere iff it has no dot, an empty part, or an ordinal |
| ModuleNames.HookedExport | src/apiscope/debug_session.cpp:245-258 | an exported address resolves the hook to it in its own module, and a missing export is an error |
| ModuleNames.ForwardedHook | src/apiscope/debug_session.cpp:220-295 | a hook behind a forwarder waits while no module of the small-letter name is loaded, is an error if that has no such export, and else goes to the export's address in the newest one |
| ModuleNames.HeapAllocIsFound | src/apiscope/debug_session.cpp:220-295 | kernel32.dll!HeapAlloc, forwarded to "NTDLL.RtlAllocateHeap", resolves into ntdll.dll |
| ModuleNames.EightLookups | src/apiscope/debug_session.cpp:227-230 | an address at the end of k forwarders is found iff k is less than eight, for module names without an exclamation mark |
| Forwarders.FollowMeans | src/apiscope/debug_session.cpp:220-275 | Resolved and Pending say exactly that the chain reaches an address, or a module not loaded, within the allowed lookups |
| Forwarders.CycleIsError | src/apiscope/debug_session.cpp:227-239 | a forwarder cycle is an error under any bound on lookups |
| Forwarders.WalkIsFollowUnlessRevisited | src/apiscope/debug_session.cpp:236-239 | the visited set only turns an answer into an error, exactly when an identity comes up twice |
| Forwarders.WalkIsFollow | src/apiscope/debug_session.cpp:220-275 | for module names without an exclamation mark the resolver agrees with following the forwarders |
| Forwarders.LoopCheckCanMisfire | src/apiscope/debug_session.cpp:235-239 | an ordinary hook whose two forwarders lead to two different exports with one identity: an answer three lookups away is reported as an error |
| Forwarders.MisfiresIffConfused | src/apiscope/debug_session.cpp:235-239 | the loop check spoils an answer iff two different exports on the chain have one identity |
| Forwarders.RevisitsMeans | src/apiscope/debug_session.cpp:235-239 | looking back finds something iff some node of the chain repeats an identity |
| Forwarders.LoadElsewhere | src/apiscope/debug_session.cpp:208-275 | loading a module changes neither the followed chain nor the code's walk, if neither its name nor the one it replaces is on the chain |
| Forwarders.HookLoadElsewhere | src/apiscope/debug_session.cpp:277-295 | and so changes no hook's resolution |
| Session.DebugSession.FindModule | src/apiscope/debug_session.cpp:208-218 | the loop returns the one newest module of that name, or none iff none is loaded |
| Session.DebugSession.LookUp | src/apiscope/debug_session.cpp:241-267 | one lookup of the resolver, over the table of loaded modules and with forwarders read as ModuleNames.ForwarderLeads says |
| Session.DebugSession.ResolveExportAddress | src/apiscope/debug_session.cpp:220-275 | the recursive resolver, with depth limit and visited set, computes the walk over the module table |
| Session.DebugSession.ResolveHookAddress | src/apiscope/debug_session.cpp:277-295 | resolution of a hook, and the module it starts from |
| Session.DebugSession.TryInstall | src/apiscope/debug_session.cpp:298-342 | one round of the loop: it succeeds iff the hook is installed, or waits, or resolves to an unhooked address that HookFunction can hook; then at most one hook is added, where its definition resolves to; the code there jumps to the handler exported for it and the slot exported for it reads as its trampoline |
| Session.DebugSession.TryInstallPendingHooks | src/apiscope/debug_session.cpp:297-344 | the pass goes round by round and fails iff a round does; success means that every requested hook is installed or waits for a module |
| Session.DebugSession.BypassFor | src/apiscope/hook_manager.cpp:312-326 | succeeds iff the module exports the name with an address, its code can be moved, and the calls succeed; never from a forwarder |
| Session.EachSettled | src/apiscope/debug_session.cpp:297-344 | a finished pass means, for each single definition, installed or waiting for a module |
| Session.DebugSession.ConfigureTransport | src/apiscope/trace_session.cpp:222-251 | succeeds iff both bypasses can be made, one after the other, and both variables set; then each exported variable reads as the address of its own bypass |
| Transport.BypassIsCopy | src/apiscope/hook_manager.cpp:278-310 | a bypass holds the bytes it replaces and a jump behind them |
| Session.DebugSession.RegisterModule | src/apiscope/debug_session.cpp:144-171 | the new module is the newest of its name, the session invariant is kept, it fails iff ntdll was seen and the transport could not be set up or a round of the installation failed, and success with transport configured settles every hook |
| Session.DebugSession.HandleUnloadDll | src/apiscope/debug_session.cpp:184-206 | exactly the hooks whose target or source is the module are dropped, and given back oldest first: the memory after it, when that succeeds, that no trampoline of theirs is mapped then, and that a failure touches no other byte |
| Session.DebugSession.EraseHooks | src/apiscope/debug_session.cpp:190-204 | the erasing loop keeps the other hooks in order and gives back each dropped one in turn; whatever fails, code is as if some of them had been undone |
| Session.DebugSession.RemoveAllHooks | src/apiscope/debug_session.cpp:346-351 | cleanup empties the hook list and, if clean, undoes all hooks newest first; when it is clean |
| Session.DebugSession.CleanupTransport | src/apiscope/trace_session.cpp:302-369 | ring, wake-up event and bypasses are given back whatever fails; if clean, no byte of them is mapped and each of the four variables outside them reads zero |
| Transport.VariableIsNull | src/apiscope/trace_session.cpp:302-369 | each of the four variables reads zero once the transport is down |
| Transport.NothingIsLeft | src/apiscope/debug_session.cpp:346-360 | no byte of the hook image is mapped after the cleanup |
| Session.DebugSession.CleanupRemote | src/apiscope/debug_session.cpp:346-360 | hooks, transport and hook image come out in that order: the memory after it, when it succeeds, and that then no byte of the image, the ring, a bypass or a trampoline is mapped |
| EventLoop.PassTold | src/apiscope/debug_session.cpp:297-344 | every pass of installations, in any session so far, extends the story of what went on and came off |
| SessionStory.UnloadTold | src/apiscope/debug_session.cpp:184-206 | so does every unload, whether or not its removals succeed; a calm one leaves nothing out of turn |
| SessionStory.RunTold | src/apiscope/debug_session.cpp:484-489 | and the program running in between, with code coming and going: a new byte is spoken of as it was when it was mapped |
| SessionStory.ToldRestores | src/apiscope/debug_session.cpp:346-360 | with no hook recorded any more, code is as when it was mapped if hooks came off in order or never met |
| EventLoop.SeparateIsCalm | src/apiscope/debug_session.cpp:184-206 | if the addresses that the events make definitions resolve to are apart, an unload whose removals succeed is calm |
| EventLoop.LoadTold | src/apiscope/debug_session.cpp:144-171 | so does every load, failed ones included: at most the function of the definition that failed is left outside the claim |
| SessionStory.BackwardsTold | src/apiscope/debug_session.cpp:346-351 | and the cleanup, which takes all recorded hooks off in order |
| EventLoop.Attend | src/apiscope/debug_session.cpp:490-505 | the loop over loads and unloads, with the program running in between and its code coming and going, keeps the session invariant and that story, and every hook of it went where an event made its definition resolve to |
| EventLoop.Debug | src/apiscope/debug_session.cpp:490-535 | a whole session and its cleanup: code is as when it was mapped, and code that stays as at first, if no module was unloaded, or if all removals succeeded and resolvable addresses are apart; otherwise wherever hooks came off in order or never met; a hook still on has lost its module |
| Transport.OneBypass | src/apiscope/hook_manager.cpp:278-310 | a function and an address determine the bypass |
| Session.WithoutModuleOk | src/apiscope/debug_session.cpp:190-205 | the hooks that stay need the unloaded module no more |
| Session.TargetIsLoaded | src/apiscope/debug_session.cpp:254-257 | a resolved hook's target module is loaded |
| Session.DebugSession.IsInstrumentationAddress | src/apiscope/debug_session.cpp:363-380 | true iff the address is in the hook image, a patched range or a trampoline |
| Session.DebugSession.IsCleanupQuiescent | src/apiscope/debug_session.cpp:382-440 | true iff there is no image, or the counter was read as zero and every thread of the process is gone or was seen outside image, patches and trampolines; a thread that cannot be opened or read spoils it, one that is gone does not |
| Relocation.CopySections | src/apiscope/process_manager.cpp:294-308 | succeeds iff every section ends within file and image, and then copies them in order |
| Relocation.SectionByte | src/apiscope/process_manager.cpp:294-308 | a byte of the image comes from the last section that covers it |
| Relocation.UncoveredByte | src/apiscope/process_manager.cpp:294-308 | a byte that no section covers stays as it was |
| Relocation.RelocateEntry | src/apiscope/process_manager.cpp:335-348 | one entry is skipped, stops the walk, or adds delta to the word it names |
| Relocation.RelocateImage | src/apiscope/process_manager.cpp:310-351 | the in-place walk ends for any bytes and does what the walk over the changing image does: every page address, entry and block size is read when its turn comes |
| Relocation.WalkIsParse | src/apiscope/process_manager.cpp:319-350 | if no target lies in the directory, that walk relocates exactly the targets the directory asks for at first, with its verdict |
| RelocationDirectory.ReadU32IsLittleEndian | src/apiscope/process_manager.cpp:319-332 | a double word of a block header is its four bytes read little-endian |
| RelocationDirectory.ReadU16IsLittleEndian | src/apiscope/process_manager.cpp:333-337 | an entry is its two bytes read little-endian |
| RelocationDirectory.WrittenDirectoryIsRead | src/apiscope/process_manager.cpp:319-350 | a directory written from any list of pages and entries asks for exactly page plus offset of its entries of kind 10, in order; its end is clean, or refused for a block of impossible size |
| RelocationDirectory.WrittenDirectoryIsFollowed | src/apiscope/process_manager.cpp:310-351 | and the walk adds the distance to exactly those words |
| RelocationDirectory.LeavingIsRefused | src/apiscope/process_manager.cpp:338-344 | the first written target outside the image is refused, unless its sum wraps to one inside |
| Relocation.RelocatedWord | src/apiscope/process_manager.cpp:345-346 | with disjoint targets each word is moved exactly once |
| Relocation.PlusValue | src/apiscope/process_manager.cpp:345-346 | the moved word is the old one plus delta modulo 2^64 |
| Relocation.RelocatedElsewhere | src/apiscope/process_manager.cpp:310-351 | bytes that belong to no target do not change |
| Relocation.RelocatedBack | src/apiscope/process_manager.cpp:310-351 | moving every word back gives the image back |
| Relocation.WalkingBackRestores | src/apiscope/process_manager.cpp:310-351 | a relocated image still carries its directory, and walking it by the opposite distance restores the original, if its targets are disjoint and outside the directory |
| Relocation.EscapesIffFooled | src/apiscope/process_manager.cpp:319-346 | for any image below 4 GiB, any directory and any distance: the walk writes outside the image iff the first target outside it, as the walk reads it, wraps to one inside |
| Relocation.EscapesIffParsed | src/apiscope/process_manager.cpp:319-346 | if no target lies in the directory, iff the first target outside the image among those the directory asks for at first wraps to one inside |
| Relocation.LowPagesStayInside | src/apiscope/process_manager.cpp:339-346 | if no target lies in the directory, block addresses below the last page of the 32-bit range keep the walk inside an image of any size |
| Relocation.WrappedTargetEscapes | src/apiscope/process_manager.cpp:339-346 | a directory that passes every check and names a target four gigabytes past the image, whatever the distance |
| Relocation.SelfRelocationEscapes | src/apiscope/process_manager.cpp:319-346 | a directory whose targets all lie in the image and whose pages are low at first, and whose walk escapes because it relocates a page address of its own |
| JsonText.JsonEscape | src/apiscope/trace_renderer.cpp:60-94 | the loop computes the escaped bytes |
| JsonText.EscapesAre | src/apiscope/trace_renderer.cpp:60-94 | the escape of every single byte, spelled out |
| JsonText.EscapeRoundTrip | src/apiscope/trace_renderer.cpp:60-94 | a JSON string reader gets any bytes back and stops at the closing quote |

## Left out

- Counter width: positions, sequence numbers, drop counts and ActiveHookCalls do not wrap; `RingHistory.DeliveredSequences` asks for fewer than 2^32 numbers.
- Memory model: interlocked operations are full barriers, so interleaving of steps stands for all orders.
- ReaderLoop and WriterLoop are state machines, not methods, because they run until they are told to stop.
- RingCode.SharedRing.EmitTraceEvent: takes a bound on the positions others ever claim, as the 64-bit counter is one; without it a claim loop need not end.
- RingCode.SharedRing.EmitTraceEvent: a null event or ring pointer, the other two reasons for the early return, is not modelled.
- PipelineDrain.DrainTerminates: a thread that is woken without cause for ever need not finish; spurious wake-ups may be any finite number.
- PipelineDrain.DrainIsComplete: says nothing after a failed wait, where the reader leaves at once.
- TraceEvents.TraceEvent.AppendTraceField: a null event has no buffer to flag and is not modelled; a null value is.
- Thread identifiers and timestamps are parameters of the builder.
- Trampoline: code and data memory are separate, and instructions other than the jump's three are a function of their bytes and the context, so an indirect call among the displaced bytes, which would push its own address, is outside the model; rsp is at least 8.
- The instruction decoder is any function that looks no further than the instruction and reports at most 15 bytes.
- HookManager.Process: a refused write changes nothing, allocations are exactly 1024 bytes, and protections are not kept; export lookups in the hook image are parameters.
- HookManager.Process.Connect: is the second half of HookFunction, split off so that each half has its own contract.
- Quiescence.SafeRemoval: the handlers construct the guard before anything else and reach trampolines and bypasses only from inside it; prologues and epilogues call nothing; no exception or APC unwinds through a handler; unloads do not happen; no thread is inside a function's first bytes when it is patched, and while the patch is there no code branches into the displaced bytes other than through the function's entry, such as a loop back into them; the debugger does not check this either.
- CleanStop.PassedCheck: the snapshot lists every thread of the stopped process. The code also takes a snapshot whose first thread cannot be read for one without threads and then finds the process quiescent; an empty snapshot is that case, and nothing is claimed of it.
- Cleanup after a failed event skips the quiescence check in the code; no safety is claimed for it.
- Session.DebugSession: exports do not change while one event is handled; finding a module's name, mapping the hook image and starting the trace session are not modelled.
- Session.DebugSession.RegisterModule: that every hook is settled is not claimed after an unload, when a hook whose module went away may be missing until the next load.
- RingCode: a ghost method stands for the other threads; its contract allows every finite run of their steps and its body takes none.
- Relocation.RelocateImage: what happens after a write outside the image is not modelled, nor is header parsing.
- Relocation.WalkingBackRestores: needs pairwise disjoint targets outside the directory; overlapping targets are relocated one after the other, which adding the opposite distance in the same order need not undo.
- JsonText.EscapeRoundTrip: bytes are copied as they are, so the output is valid UTF-8 only when the input is.
- EventLoop.Debug: the hook image is mapped already; code is what the program does not write while it is mapped, is new only where no recorded hook and no memory of the debugger is, and goes before the unload of its module is reported; a session that fails while hooking a function says nothing of the 32 bytes at its start.
- EventLoop: a ghost method stands for the running program; its contract allows any change to memory that keeps the code, and its body takes away only the code of a module that is being unloaded.
- Text and JSONL line layout, option parsing, hook discovery, breakpoints and the other debug events, process creation, handles and section mapping: thin layers over the system with no logic of their own.
