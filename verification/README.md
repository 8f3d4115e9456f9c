# Verified ingress, modelled in Dafny

Geyser hands an authenticated Bedrock join to a Go host in three moves: Geyser announces an open
connection handle, the host assigns a 16-byte correlation to it with a deadline at most five
seconds away, and Geyser sends back one verified frame for that correlation. This project models
that handoff and proves what the code keeps in every run, then does the same for the two sequential
pieces that exist in both Go and Rust: the configuration merge and the ready-line detector.

| files | what they model |
|---|---|
| `abi.dfy` | integer widths, byte strings, instants, error values and fixed limits |
| `broker_state.dfy`, `ingress_broker.dfy`, `broker_runs.dfy`, `broker_effects.dfy` | the ingress broker: its critical sections as functions, the object with its loops proved against them, arbitrary interleavings of them, and what each call does handle by handle |
| `varint.dfy`, `frame_scanner.dfy`, `frame_layout.dfy`, `frame_order.dfy` | the varint reader and the record scanner, against arithmetic and a recursive parser; serialisation and the Java producer; what the order of records matters to |
| `packet_codec.dfy`, `packet_bytes.dfy`, `packet_stream.dfy` | the keyed packets, their encoders and decoder, their bytes at their offsets, and the numbered stream |
| `session_state.dfy`, `subprocess_session.dfy` | the subprocess session: its sections as functions, and the object proved against them |
| `session_system.dfy`, `session_drain.dfy`, `session_wire.dfy`, `session_runs.dfy`, `session_outcome.dfy`, `session_race.dfy`, `session_effects.dfy` | session and broker together as one transition system, what holds in all its runs, and what each step does |
| `callback_generation.dfy`, `embedded_system.dfy`, `native_discipline.dfy`, `embedded_runs.dfy`, `embedded_threads.dfy`, `embedded_effects.dfy`, `embedded_broker.dfy` | embedded mode: the generation gate, the supervisor, the isolate goroutine and the health poller; the order of native calls, promised and not; attached threads; the health flag and failures; the broker underneath |
| `config_tree.dfy`, `config_merge.dfy` | the merge on trees; Go's in-place merge on shared maps and Rust's on owned ones |
| `ready_line.dfy` | both ready-line detectors |

`dafny verify dfyconfig.toml` checks everything.

## How to read it

A lock-protected section of the source is one atomic step. `assign` releases the broker's lock
around its native call and is two steps; `deliverIPCFrame` takes the lock twice and is two steps;
`sync.Once` makes every failing party wait until `close` is complete. The clock is an arbitrary
reading in each step that looks at it. A timer may fire at any moment with any arguments, because
stopping it can always come too late. A native call or a write may succeed or fail. HMAC-SHA256 is
an uninterpreted function of key and message with 32-byte results.

Three things are assumed of the surroundings: no write succeeds on a closed connection; a
generation number is activated once, as the counters hand each out once (go/subprocess.go:109,
go/embedded_ingress.go:124-126); and only the session's read loop, or in embedded mode a callback
inside the generation's gate, opens and delivers for its generation, as these hold the only
references that carry its number (go/subprocess_ingress.go:365, 441; go/embedded_ingress.go:82, 104).

An object that the source updates in place is a class whose methods are proved equal to pure
functions on its state; the run files reason about those functions. The `_effects` files, and
`packet_bytes.dfy`, say what the functions do without naming them: which handle, pair or byte
changes, to what, and that nothing else does, with the numbers of the contract written out. The protocol constants live in
a Go module outside this repository; they are taken from the Java end of the same protocol
(`build/overlay/core/src/main/java/org/geysermc/geyser/util/VerifiedIngressSubprocess.java:27-53`)
and from the plan that fixes them
(`docs/superpowers/plans/2026-08-03-verified-ingress-v1-consumption.md:21-22`).

Where a natural claim is false of the code, the code is modelled as it is:

- The handle a frame is published under need not be the acknowledged one. Between the two sections
  of `deliverIPCFrame` the broker's entry may expire and the same correlation may be assigned to
  another open handle with a deadline in the same millisecond. `SessionRace.HandleCanDiffer` gives
  such a run and `SessionRuns.PublishedHandle` the exact condition.
- Rust does not render the proxy toggle at `advanced.java.use-haproxy-protocol`, where Go does and
  Geyser 2 reads it, but at `java.use-proxy-protocol`. Without an override Rust's rendering holds
  there what its baseline holds (`ConfigTree.RustLeavesToggle`); the two renderings agree on the
  toggle exactly under the condition of `ConfigTree.ToggleAgreement`, and with Floodgate on and
  Rust's own baseline they do not (`ConfigTree.RustOmitsToggle`).
- The two ANSI strippers differ on an ESC that is not followed by `[`, in both directions
  (`ReadyLine.BareEscapeDisagrees`, `ReadyLine.BareEscapeJoins`); `ReadyLine.StripsAgree` says
  exactly when they agree.
- The merge is not associative (`ConfigTree.NotAssociative`). Grouping does not matter exactly when
  every leaf in the middle that cuts off a mapping is itself overlaid by a source that covers
  everything below it (`ConfigTree.AssociativeIff`).
- The order of a frame's records can change the error reported, though neither acceptance nor the
  correlation: exactly when the frame has both a version fault and a correlation fault
  (`FrameOrder.OrderMattersIff`, with `FrameOrder.OrderMattersHere` as an input).
- In embedded mode the native unregistration is called exactly if its thread could be attached
  (`EmbeddedThreads.UnregisteredIff`). Run may be called after unregistration, and even after
  shutdown: the supervisor does not wait for the isolate goroutine to call it, and whatever the
  supervisor has reached, run has been called exactly if that goroutine has moved on
  (`EmbeddedThreads.RunCalledIff`). Threads may detach after tear-down: exactly those of the helpers
  that have reported and not yet detached (`EmbeddedThreads.AttachedAtTearDown`).
  `EmbeddedThreads.RunAfterShutdown` is a run that does both.

## Model

| member | source | states |
|---|---|---|
| IngressBroker.IngressBroker.Open | go/ingress.go:189-237 | the object's open, with its eviction sweep, has the outcome and new state of the specification for some admissible sweep |
| IngressBroker.IngressBroker.EvictStaleHandlesLocked | go/ingress.go:245-277 | the two sweeps over the handle map, in any iteration order, end in an admissible eviction |
| IngressBroker.IngressBroker.ClearLocked | go/ingress.go:152-176 | deleting while iterating and draining both queues empties the broker and touches nothing else |
| IngressBroker.IngressBroker.AssignBegin | go/ingress.go:279-322 | assign up to its native call, with its search for a shared handle, against the specification |
| IngressBroker.IngressBroker.AssignFinish | go/ingress.go:324-336 | assign after its native call: the error for each return code, and the handle closed on failure |
| IngressBroker.IngressBroker.CloseHandle | go/ingress.go:339-354 | closes the handle and drops every pending entry naming it |
| IngressBroker.IngressBroker.ClearAssignmentLocked | go/ingress.go:356-374 | clears the correlation, its own handle, the given handle and every entry naming it |
| IngressBroker.IngressBroker.Expire | go/ingress.go:376-388 | a timer takes effect only on the entry it was set for |
| IngressBroker.IngressBroker.Deliver | go/ingress.go:404-457 | deliver's checks in their order, the consumed entry, the queued frame or the overflow failure |
| BrokerState.EvictionContains | go/ingress.go:239-277 | any eviction keeps every assigning handle, drops every idle one past the TTL and at most one more, only if that leaves 4095, and then an oldest idle one; it refuses exactly when 4096 handles are all assigning |
| BrokerEffects.ActivateEffect | go/ingress.go:123-131 | activation sets the generation and empties everything; it is active for a nonzero generation with an assignment callback |
| BrokerEffects.RetireEffect | go/ingress.go:133-187 | deactivation shuts the broker of that generation and leaves any other alone |
| BrokerEffects.OpenEffect | go/ingress.go:189-237 | why open refuses, in order; which refusals shut the broker and notify; an accepted open records the clock reading, queues one event and drops nothing but what the sweep dropped |
| BrokerEffects.BeginEffect | go/ingress.go:279-322 | why assign refuses before its native call, in order; exactly which handles and entries each refusal closes, those of an already pending correlation included; the one entry added otherwise |
| BrokerEffects.FinishEffect | go/ingress.go:324-336 | success, the four refusals and any other return code are told apart; what is closed |
| BrokerEffects.ClearEffect | go/ingress.go:356-374 | exactly which handles and entries go, and that all others stay |
| BrokerEffects.CloseEffect | go/ingress.go:339-354 | the handle and what is pending under it, and nothing else |
| BrokerEffects.ExpireEffect | go/ingress.go:376-388 | a timer closes what it was set for, and nothing if anything about the entry differs |
| BrokerEffects.LookupEffect | go/ingress.go:394-401 | the expiry found is the deadline in whole milliseconds, and only under the packet's own handle |
| BrokerEffects.DeliverEffect | go/ingress.go:404-457 | why deliver refuses, in order; an overflow shuts the whole broker and notifies; every other refusal just closes the correlation with its handle; what is queued otherwise |
| BrokerState.OpenKeepsInv | go/ingress.go:189-237 | open keeps the joint invariant |
| BrokerState.BeginAssignKeepsInv | go/ingress.go:279-322 | so does assign up to its native call, on every path |
| BrokerState.ClearAssignmentKeepsInv | go/ingress.go:356-374 | so does clearing an assignment, which drops two handles at once |
| BrokerState.DeliverKeepsInv | go/ingress.go:404-457 | so does deliver, on every path |
| BrokerRuns.RunKeepsInv | go/ingress.go:92-472 | in every state of every interleaving each pending entry sits under its own nonzero correlation, its nonzero handle is open, no two share a handle, and an inactive broker is empty |
| BrokerRuns.Occupancy | go/ingress.go:215-277 | pending assignments are at most as many as open handles, and those at most 4096, in every reachable state |
| BrokerRuns.OtherGenerationChangesNothing | go/ingress.go:123-237 | a call for another generation changes nothing and notifies nobody |
| BrokerRuns.QueuedEventsAreCurrent | go/ingress.go:123-176 | whatever is queued carries the broker's current generation; an inactive broker has nothing queued |
| BrokerRuns.InactiveUntilActivated | go/ingress.go:133-187 | after a failure or deactivation nothing is open, pending or queued until the next activation |
| BrokerRuns.FatalOncePerActivation | go/ingress.go:145-150 | between two fatal notifications there is an activation |
| BrokerRuns.FailClosed | go/ingress.go:279-472 | in every run, a failing assign of the current generation leaves its handle neither open nor pending, and if it failed because its correlation was pending, leaves the correlation unassigned and the handle it was pending under neither open nor pending; and deliver, whatever it returns, leaves its correlation unassigned and the assigned handle closed |
| BrokerRuns.PendingHasOrigin | go/ingress.go:279-322 | a pending entry stems from one assign of the same activation and has been pending since |
| BrokerRuns.PublicationRedeems | go/ingress.go:404-457 | a published frame carries the generation, handle, correlation and floored expiry of an earlier assign whose handle was opened before it in the same activation, and is live at that deliver's clock |
| BrokerRuns.TakeOnce | go/ingress.go:404-457 | the map from published frames to the assigns they redeem is injective |
| Varint.Parse | go/subprocess_ingress.go:213-225 | number, truncation and overflow are told apart exactly, and a number is the sum of its digits times powers of 128 |
| Varint.ConsumeVarint | go/subprocess_ingress.go:213-225 | the shift-and-OR loop in 64 bits computes that |
| Varint.DigitStep | go/subprocess_ingress.go:219 | masking, shifting and OR-ing adds the next digit and loses no bit |
| Varint.ParseEncoded | go/subprocess_ingress.go:213-225 | decoding undoes the standard encoding of every 64-bit value, whatever follows it |
| FrameScanner.ExtractIngressCorrelation | go/subprocess_ingress.go:153-211 | the scanning loop returns the verdict on the recursively parsed records |
| FrameScanner.VerdictAccepts | go/subprocess_ingress.go:153-211 | it succeeds with c exactly when the whole frame parses and has one version field equal to 1 and one nonzero sixteen-byte correlation field, c |
| FrameLayout.RecordAcceptedIff | go/subprocess_ingress.go:156-206 | a record is accepted exactly with field 1 to 8, wire type 0, 1, 2 or 5, and its payload there |
| FrameLayout.RoundTrip | go/subprocess_ingress.go:156-206 | parsing undoes serialising, for any list of writable records |
| FrameLayout.ExtractUndoesSerialiser | go/subprocess_ingress.go:153-211 | extraction from a serialised message finds the correlation it carries, and only that |
| FrameOrder.OrderDoesNotMatter | go/subprocess_ingress.go:156-210 | permuting the records of a frame, minimal varints or not, changes neither acceptance nor the returned correlation |
| FrameOrder.OneFaultOneError | go/subprocess_ingress.go:172-196 | with at most one kind of fault, the order of the records does not change the error either |
| FrameOrder.OrderMattersIff | go/subprocess_ingress.go:156-210 | the order can change the outcome exactly when the frame has both a version fault and a correlation fault |
| FrameOrder.OrderMattersHere | go/subprocess_ingress.go:172-196 | a frame for which it does |
| FrameLayout.ProducedFramesAreAccepted | build/overlay/core/src/main/java/org/geysermc/geyser/util/GeyserLiteVerifiedIngressProducer.java:49-119 | every frame the Java producer lays out for a nonzero correlation is accepted with it |
| FrameLayout.ProducerFields | build/overlay/core/src/main/java/org/geysermc/geyser/util/GeyserLiteVerifiedIngressProducer.java:49-119 | which record carries which claim in the producer's frame |
| PacketCodec.DecodeEncoded | go/subprocess_ingress.go:40-151 | decoding an encoded packet returns its fields, or the error for the generation or sequence that differs |
| PacketCodec.EncodeDecoded | go/subprocess_ingress.go:83-151 | an accepted packet is, byte for byte, the encoding of what it decodes to |
| PacketCodec.AcceptedIffEncoded | go/subprocess_ingress.go:83-151 | acceptance as p, exactly |
| PacketBytes.PrefixBytes | go/subprocess_ingress.go:40-55 | every packet: version, type, and generation, sequence and handle at their offsets, most significant byte first; then its fields; then the MAC of all that precedes it |
| PacketBytes.BodyBytes | go/subprocess_ingress.go:57-81 | each type's own fields at their offsets, and its length |
| PacketBytes.DecodeRefusal | go/subprocess_ingress.go:83-151 | why a packet is refused, in the order of the tests, with the lengths of the contract |
| PacketCodec.EncodeAssignment | go/subprocess_ingress.go:57-62 | the buffer filled in place is the layout of the assignment packet |
| PacketCodec.EncodeAck | go/subprocess_ingress.go:64-69 | the same for an ACK |
| PacketCodec.EncodeOpen | go/subprocess_ingress.go:71-74 | the same for an open packet |
| PacketCodec.EncodeVerified | go/subprocess_ingress.go:76-81 | the same for a verified packet |
| PacketStream.ReadLoop | go/subprocess_ingress.go:344-362 | the reading loop with its counter accepts what the recursive receiver accepts |
| PacketStream.StreamAgreement | go/subprocess_ingress.go:344-362 | of written packets arriving in any order the reader accepts exactly those before the first misplaced one, and fails there with a sequence error |
| SubprocessSession.SubprocessIngressSession.WriteAssignment | go/subprocess_ingress.go:302-311 | re-checks the lifetime, takes the next number and lays out the packet under it |
| SessionEffects.AssignmentOnTheWire | go/subprocess_ingress.go:302-311 | in every run, what an attempted write puts on the wire decodes under the session's key, generation and next number to an assignment with the call's handle, correlation and deadline in whole milliseconds |
| SessionEffects.InsertStep | go/subprocess_ingress.go:283-300 | which code refuses an assign before it inserts its pair, and the entry inserted otherwise |
| SessionEffects.WriteStep | go/subprocess_ingress.go:302-322 | no number is used for an assignment no longer live; what follows a written and a failed write |
| SessionEffects.HearStep | go/subprocess_ingress.go:325-335 | how the status received becomes the call's result |
| SessionEffects.GiveUpSteps | go/subprocess_ingress.go:312-341 | how the other ways out become its result, and that it first removes its pair |
| SessionEffects.FinishStep | go/ingress.go:324-336 | a call that returns success leaves the broker as it is; any other leaves its handle neither open nor pending |
| SessionEffects.ReadEffect | go/subprocess_ingress.go:357-423 | which packets end the session, where the others are handed on, and the number expected next |
| SessionEffects.AckStep | go/subprocess_ingress.go:369-417 | what becomes of an ACK, and which ACKs remove their pair |
| SessionEffects.TakeStep | go/subprocess_ingress.go:424-440 | a frame takes its pair; it is passed over without one, and ends the session if the pair was not acknowledged |
| SessionEffects.LookStep | go/ingress.go:394-410 | a frame is delivered with the floored expiry of the entry its pair has in the broker, and passed over when there is none |
| SessionEffects.DeliverStep | go/subprocess_ingress.go:441-447 | which of the broker's refusals end the session |
| SessionEffects.TimerStep | go/subprocess_ingress.go:494-506 | the timer removes the pair it was set for and tells its waiter, unless the slot is taken |
| SessionEffects.CloseStepEffect | go/subprocess_ingress.go:457-481 | which step of close shuts the gate, which retires the broker, and which empties the table and tells the waiters |
| SubprocessSession.SubprocessIngressSession.NotifyAndClear | go/subprocess_ingress.go:468-479 | tells every waiter that has not been told, and empties the table |
| SubprocessSession.SubprocessIngressSession.ZeroKey | go/subprocess_ingress.go:511-513 | every byte of the key is zeroed |
| SessionSystem.BrokerStep | go/subprocess_ingress.go:274-453 | every step of the composed system is one step of the broker, or none |
| SessionRuns.RefinesBroker | go/subprocess_ingress.go:274-481 | so every run of the system is a run of the broker, and the broker's theorems hold in it |
| SessionDrain.RunKeepsInv | go/subprocess_ingress.go:274-514 | the composed invariant, in every reachable state |
| SessionDrain.WaitDrains | go/subprocess_ingress.go:274-514 | once wait has joined reader and calls, close is complete and, from then on, no read loop and no counted call runs and nothing is pending, even if an assign inserted after the clear |
| SessionDrain.KeyNeverReadZeroed | go/subprocess_ingress.go:508-514 | whatever step uses the key finds the original one |
| SessionDrain.WaitZeroesKey | go/subprocess_ingress.go:508-514 | when wait has returned, the key is zeros |
| SessionWire.Numbering | go/subprocess_ingress.go:302-312 | concurrent assigns number their writes 1, 2, 3, ... modulo 2^64 in the order they are attempted |
| SessionWire.WireAgreement | go/subprocess_ingress.go:302-312 | until a write fails, a receiver that is handed the written packets in any order accepts exactly those before the first misplaced one, and all of them when handed all in order |
| SessionRuns.AckBeforePublication | go/subprocess_ingress.go:363-446 | a frame is published for the session only after an assign inserted its pair, a positive ACK for the pair was processed before its deadline, the frame took the still pending entry, and the broker's entry named the packet's handle; it carries that entry's expiry; from that lookup on the read loop does nothing else |
| SessionRuns.PublishedPairWasAcknowledged | go/subprocess_ingress.go:363-446 | unless the correlation was reassigned between the two sections of deliverIPCFrame, the pair a frame is published under was acknowledged in time |
| SessionRuns.TakeOnce | go/subprocess_ingress.go:424-446 | distinct publications for the session redeem distinct insertions by assign calls |
| SessionRuns.PublishedHandle | go/ingress.go:394-402 | it is published under that handle if and only if the broker accepted no assignment of the correlation between the two sections |
| SessionRace.HandleCanDiffer | go/ingress.go:394-402 | a complete run that publishes it under another handle |
| SessionRuns.StaysAbsent | go/subprocess_ingress.go:369-436 | a pair removed from the table stays removed until an assign inserts it again |
| SessionRuns.RejectedStaysRejected | go/subprocess_ingress.go:369-436 | meanwhile its packets change nothing, close nothing and touch no other pair, and publish nothing the read loop had not already taken |
| SessionRuns.AckOutcome | go/subprocess_ingress.go:369-411 | in every run, an ACK removes its pair exactly if it is late, or negative with no positive one before it, and ends the session exactly if the pair is acknowledged and still in time |
| SessionRuns.NegativeAckPublishesNothing | go/subprocess_ingress.go:377-436 | after such a rejecting ACK no frame for the pair is published at all |
| SessionRuns.ClosedIsGone | go/subprocess_ingress.go:457-467 | from the step of close that deactivates the broker on, nothing of the session's generation is open, pending or queued, in any later state |
| SessionOutcome.SuccessWasAcknowledged | go/subprocess_ingress.go:325-342 | assign reports success only if a positive ACK for its own pair reached its own entry before the deadline |
| NativeDiscipline.StartOrder | go/embedded.go:104-152 | in a lawful trace create, init, register and run come in this order, once each, each after the success of the one before |
| NativeDiscipline.UnregisterFirst | go/embedded.go:193-216 | shutdown always, and tear-down once registration was called, come after an attempt to unregister |
| NativeDiscipline.RunReturnsFirst | go/embedded.go:150-154 | a run that was called returns before tear-down |
| NativeDiscipline.NothingAfterTearDown | go/embedded.go:104-221 | after tear-down no native call but detach occurs |
| NativeDiscipline.QuietAfterShutdown | go/embedded.go:193-216 | after shutdown no status, assign, attach or unregister starts |
| EmbeddedRuns.RunIsLawful | go/embedded.go:104-221 | every interleaving, with failures and cancellation anywhere, has a lawful trace and keeps the invariant |
| EmbeddedRuns.LifecycleOrder | go/embedded.go:104-221 | so in every run init follows create, register init and run register, each its success; shutdown, and tear-down of a registered isolate, follow an attempt to unregister; run returns before tear-down; and nothing but detach follows tear-down |
| EmbeddedRuns.TornDownExactlyOnce | go/embedded.go:104-155 | a finished isolate goroutine has torn down an isolate it created exactly once, and otherwise nothing |
| EmbeddedRuns.TearDownIsAlone | go/embedded.go:193-221 | tear-down finds no status poll, assign call or run under way |
| EmbeddedRuns.GateOnlyDrains | go/embedded_ingress.go:44-63 | once the gate is closed it stays closed and the in-flight count never rises |
| EmbeddedRuns.DrainBarrier | go/embedded_ingress.go:171-188 | from the return of the stop procedure on, nothing of the generation is in flight, none can enter, and the roots do not publish it, even for callbacks that had loaded the pointer |
| EmbeddedThreads.UnregisteredIff | go/embedded_ingress.go:171-184 | for a finished isolate goroutine that called registration: unregistration was called exactly if its thread could be attached |
| EmbeddedThreads.RunCalledIff | go/embedded.go:141-153 | after the hand-over run has been called exactly if the isolate goroutine has moved on; it has returned if that is why the supervisor went on |
| EmbeddedThreads.ThreadBalance | go/embedded.go:229-279 | in every state of every run the threads attached are those detached and those still held |
| EmbeddedThreads.AttachedAtTearDown | go/embedded.go:264-279 | at tear-down the attached threads are exactly the helpers that have reported and not yet detached |
| EmbeddedThreads.RunAfterShutdown | go/embedded.go:141-221 | a complete run with run called after unregistration and shutdown, and a detach after tear-down |
| EmbeddedBroker.NothingQueuedAfterStop | go/embedded_ingress.go:146-188 | from the return of the stop procedure on, no opening or frame of the generation is queued, open or pending, in any later state |
| EmbeddedEffects.HealthyIff | go/embedded.go:176-258 | the health flag is up exactly while the supervisor has not returned and some status poll of the run has succeeded |
| EmbeddedEffects.PollMoves | go/embedded.go:229-258 | an unsuccessful poll sleeps and polls again; a successful one, a cancelled context or a missing thread ends the polling |
| EmbeddedEffects.PollFlag | go/embedded.go:248-251 | only a successful poll raises the flag |
| EmbeddedEffects.EndsForAReason | go/embedded.go:157-191 | a supervisor that returns at the start had a failed start or a cancelled context; one that ends a running isolate met a failure, the return of run or a cancelled context |
| EmbeddedEffects.FatalEffect | go/embedded_ingress.go:65-72 | the first failure closes the gate and wakes the supervisor; later ones change nothing |
| EmbeddedEffects.ShutdownTriedIff | go/embedded.go:203-216 | a supervisor that has finished with an isolate tried to shut it down exactly if run had not returned by itself |
| EmbeddedEffects.CancelledStops | go/embedded.go:115-148 | once the context is cancelled, an isolate not yet initialised never is, one not yet registered never is, and one still registering is never handed over |
| EmbeddedEffects.TaskEffect | go/embedded_ingress.go:76-153 | calls and callbacks enter exactly while the gate is open; only a call that has entered and attached calls native code |
| EmbeddedEffects.OthersPublicationStands | go/embedded_ingress.go:154-188 | another generation's publication is never replaced or taken down |
| EmbeddedEffects.RegistersOnlyPublished | go/embedded_ingress.go:154-159 | while it registers, the roots publish this generation |
| EmbeddedRuns.HealthyOnlyWhileSupervised | go/embedded.go:176-221 | the health flag is down whenever the supervisor has returned |
| ConfigTree.MergeAt | go/config.go:89-105 | what a merge leads to at every path |
| ConfigTree.SourceLeafWins | go/config.go:89-105 | every non-map value of the overrides wins at its path |
| ConfigTree.UnmentionedStays | go/config.go:89-105 | a path the overrides do not mention keeps its value |
| ConfigTree.MergeTwice | go/config.go:89-105 | merging the same overrides twice equals once |
| ConfigTree.AssociativeIff | go/config.go:89-105 | exactly when grouping three merges one way or the other makes no difference |
| ConfigTree.NotAssociative | go/config.go:89-105 | the merge is not associative |
| ConfigTree.RenderedAt | go/config.go:43-87 | overrides beat the Floodgate key file's name, which beats typed options, which beat the baseline, at every path |
| ConfigTree.GoRendersOptions | go/config.go:52-65 | unless overridden, every typed option of Go is at its path, over any baseline |
| ConfigTree.RustRendersOptions | rust/src/config.rs:58-79 | the same for Rust, its own proxy toggle included |
| ConfigTree.KeyFileRendered | go/config.go:79-81 | the key file is named exactly with Floodgate on |
| ConfigTree.GoRendersHaproxyToggle | go/config.go:66-77 | the toggle ends up where Geyser 2 reads it unless the overrides mention that path |
| ConfigTree.RustLeavesToggle | rust/src/config.rs:58-89 | in Rust's rendering the baseline decides that path, whatever the options say |
| ConfigTree.ToggleAgreement | rust/src/config.rs:58-89 | exactly when the two renderings agree on the toggle, for any baseline, options and overrides |
| ConfigTree.RustOmitsToggle | rust/src/config.rs:105-144 | Floodgate on and no `advanced` section in the baseline: Go renders the toggle, Rust does not |
| ConfigMerge.MergeMap | go/config.go:93-105 | the recursive in-place merge over heap maps computes the merge of the two trees, writes into no map of the source, and leaves a tree if the source was one |
| ConfigMerge.BuildConfigMap | go/config.go:43-87 | the built configuration is the rendered tree, and no map of the overrides is written |
| ConfigMerge.MergeInto | rust/src/config.rs:94-103 | the Rust loop computes the same merge |
| ConfigMerge.BuildConfig | rust/src/config.rs:41-89 | the Rust configuration is the rendered tree of the Rust options |
| ReadyLine.IsGeyserReady | go/subprocess.go:230-250 | the loop that shortens its own line and steps back terminates, and finds the marker exactly when the single-pass stripped line contains it |
| ReadyLine.LineIsDone | rust/src/subprocess.rs:155-176 | the iterator version, against its own stripping function |
| ReadyLine.StripsAgree | rust/src/subprocess.rs:160-176 | the two strip a line to the same text exactly when every escape they meet starts a sequence |
| ReadyLine.ReadyTogether | rust/src/subprocess.rs:155-158 | on such lines they find Geyser ready together |
| ReadyLine.BareEscapeDisagrees | go/subprocess.go:230-250 | a line that Rust finds ready and Go does not |
| ReadyLine.BareEscapeJoins | go/subprocess.go:230-250 | a line that Go finds ready and Rust does not |

## Left out

- Sockets, processes, dynamic loading, unsafe copies and the native library itself: abstract steps that succeed or fail.
- The strength of HMAC-SHA256 and the randomness of the key: acceptance is stated as equality of tags, nothing is claimed about forgery.
- Monotonic clock readings and timer scheduling: clock readings are arbitrary and timers fire at any time.
- The bootstrap packet: a flat 41-byte layout.
- SessionWire.WireAgreement: holds for fewer than 2^64 attempted writes, where the counter has not yet wrapped to 0, which the decoder refuses.
- SessionWire.Numbering: says nothing about which packets reach the peer after a failed write, since a call that holds the next number may still write before the connection closes.
- SubprocessSession.SubprocessIngressSession.WriteAssignment: returns the packet instead of writing it; whether the write succeeds is a choice of the system's step.
- ReadyLine.ReadyTogether: stated for lines on which both strip to the same text; on others the two may still agree by accident.
- EmbeddedRuns.RunIsLawful: unregistration, shutdown and the isolate's own calls other than run are single steps, as their callers wait for them.
- PacketStream.ReadLoop: decodes and counts only; what the read loop does with each packet, and the failures that can end it, are in SessionSystem.
- FrameLayout.ProducedFramesAreAccepted: the claims' own validity rules are not modelled, and the frame's size limit is the broker's check.
- YAML parsing and printing, host and port splitting, defaults for empty options: their results are parameters of the configuration model.
- Non-string keys of Rust mappings, and nil maps in Go.
- Error texts and the reason the supervisor returns.
- Download, locating and embedding of the library, restarts and back-off, the process supervision around the session, the RakNet probe, release scripts.
- The embedded runner and health flag in Rust, which carry no ingress protocol.
