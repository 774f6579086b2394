# Verified model of the JA desktop protocol core

The repository is a desktop host that talks to a Java sidecar over newline-delimited JSON-RPC. This project
models its protocol state machines and bounded data structures in Dafny and proves what they keep over whole
runs. `dafny verify dfyconfig.toml` checks everything.

| files | what they model |
|---|---|
| `TimelineState`, `TimelineReducer`, `TimelineLoops` | the event-sourced timeline of the UI: its state, every action, and the loops of the original over local copies |
| `TimelineInvariant`, `TimelineRuns`, `TimelineExact` | the whole-run invariant, thread isolation, and exactly when a snapshot keeps it |
| `TimelineEffects` | when each action is applied and what it leaves in the maps, final decisions and streamed texts |
| `TimelineLog`, `TimelineResync`, `Utf8` | applied history, dedup window, byte counters, the resync latch, and convergence after recovery |
| `ReadyShared`, `ReadyGate` | the ready handshake of a session as interleaved atomic steps of callers, writer, reader and lifecycle owner |
| `RequestIds`, `Pending`, `PendingSession`, `PendingOutcomes` | request identifiers, the two ledgers, the bounded pending registry, their composition, and what becomes of every request |
| `EventQueue`, `EventRuns`, `EventOrder` | the three-lane event queue, its accounting, its scheduler, and how the lanes share the deliveries |
| `FrameReader`, `TokenMarkers`, `FrameCodec`, `FrameRoundTrip`, `FrameSecrecy`, `FrameStream`, `FrameKinds` | LF framing, the token audit, and the JSON-RPC 2.0 envelope (sections 4 and 5 of that specification) |
| `Timestamp` | the recognizer of date-times (section 5.6 of RFC 3339) |
| `Lifecycle` (with `LifecycleRuns`), `LifecycleDeadlines` | the sidecar lifecycle, generation fencing, backoff and the deadlines of whole runs |
| `Handshake`, `HandshakeTrace`, `HandshakeOrder` | the client's handshake object, the offline validator of recorded traces, and the order both enforce |
| `SequenceReducer` (`Reordering`), `SequenceRuns` (`ReorderingRuns`), `SequenceOutcomes` (`ReorderingOutcomes`) | the reorder buffer of the protocol spike |
| `Common` | optional and fallible values, sequence vocabulary |

How the model is read:

- Classes have the fields of the original; each method's contract gives its whole new state as a function of the
  old one, and the run lemmas are about those functions. A run is a sequence of calls from a fresh object.
- Clock readings, hash-map iteration order, fingerprints, JSON text, the error catalog and the message scanner are
  parameters. Theorems hold for every choice of them, under the hypotheses named in the lemma.
- A clock is read once per call site: a crash report and a refused start take two readings.

Where the code does less than one might expect, the exact condition is proved and a concrete run is given:

- The timeline invariant needs two things of its environment. A ready or busy status must carry a server instance:
  without one, entities stay while their instance is forgotten (`src/stores/timelineReducer.ts:195-203`). A snapshot
  must not name a turn held by another thread, which the structure check does not look at
  (`src/stores/timelineReducer.ts:314-341`). `SnapshotKeepsOrderIff` and `SnapshotKeepsTurnsIff` say exactly when one
  snapshot keeps the indexes. The branch that starts from an empty state for another instance
  (`src/stores/timelineReducer.ts:390-393`) is never taken, because the guard before it refuses such snapshots.
- A turn event takes over a turn identifier that another thread holds without items (`TurnsAreIsolatedIff`,
  `TurnMovesToAnotherThread`); everything else of other threads stays as it was.
- Installing a ready challenge does not take the ready/terminal gate. Throughout it holds only the lock of the forbidden
  tokens, which a promotion needs for its last check and releases before its compare-exchange. Its five stores
  (`src-tauri/src/agent_process/session.rs:888-899`) interleave with notify calls, the writer, the reader and
  promotions, and two runs show what can come of it. The theorems say exactly what is needed: no notify may take `initialized_sent`
  between the first and the last store, and the install must start on a closed session, or on a barrier neither
  confirmed nor being sent, with the writer stopped or no initialized frame under way. The comment at the barrier's
  reset leaves the second part to the caller. A supervisor meets both (`src-tauri/src/agent_process/supervisor.rs:241`):
  it installs once per session, and nobody else knows the token, which a notify must present, before the install has
  returned (`SingleInstallPromotesOnce` needs only this). The calls of a run are those the session's public methods
  allow; that the supervisor promotes each ready frame once is not used.
- With several installs a notify that was compared with an earlier challenge can be the one whose send confirms a later
  one (`StaleNotifyConfirms`); for a session with a single install the confirmed frame carried the promoted challenge.
- The event queue bounds how long data waits, but serves control only behind an empty server lane
  (`src-tauri/src/agent_process/events.rs:184-199`): a control event waits for every server request accepted meanwhile
  (`ControlIsNotStarved`, `ServerRequestsHoldBackControl`).
- `mark_exited` also takes Backoff to Exited, so the next start does not wait
  (`src-tauri/src/agent_process/lifecycle.rs:197-208`): a start comes early if and only if that report was made.
- The offline validator remembers every challenge, the client the last 64, so they differ exactly on traces that reuse
  a challenge from further back.
- A frame from a constructor is refused by the encoder for one reason only, a method name shaped like a challenge; a
  frame whose result is an explicit null, or whose error data holds more than the classifier, does not decode to itself.

## Model

| member | source | states |
|---|---|---|
| `TimelineRuns.ReachableStatesAreConsistent` | src/stores/timelineReducer.ts:186-787 | in every state that an admissible run reaches from the empty timeline: the three item indexes have equal keys, each order list is duplicate-free and is exactly its thread's items, every known turn of an item is on the item's thread, both copies of a sequence number agree, the dedup set is the union of its bounded windows, and no byte counter undercounts |
| `TimelineRuns.RunKeepsInv` | src/stores/timelineReducer.ts:186-787 | the same invariant is kept by any admissible run from any state that has it |
| `TimelineRuns.StepKeepsInv` | src/stores/timelineReducer.ts:779-787 | each single action keeps it when its status carries a server instance (if ready or busy) and its snapshot names no turn of another thread |
| `TimelineRuns.StepIsolates` | src/stores/timelineReducer.ts:374-427 | a live event or snapshot for one thread leaves every other thread's items, order, counters, sequence number, entry, approvals and resync mark unchanged (turns: TurnsAreIsolatedIff) |
| `TimelineRuns.AppliedIffAdmitted` | src/stores/timelineReducer.ts:186-787 | the reported outcome is applied if and only if the action passed its guards, and otherwise nothing but the outcome and at most one resync mark has changed |
| `TimelineRuns.TurnsAreIsolatedIff` | src/stores/timelineReducer.ts:429-505 | an event or snapshot leaves the turns of a thread it is not about unchanged if and only if it is not an admitted turn event whose turn identifier that thread holds |
| `TimelineExact.TurnMovesToAnotherThread` | src/stores/timelineReducer.ts:607-629 | a run in which two threads start the same turn identifier and the second takes the turn from the first |
| `TimelineRuns.ProjectKeeps` | src/stores/timelineReducer.ts:592-713 | every payload branch of the event switch keeps the indexes, the turn alignment and the counter bound (what each branch stores: the rows of TimelineEffects) |
| `TimelineEffects.ThreadEventAppliedIff` | src/stores/timelineReducer.ts:570-727 | a thread event is applied if and only if the handshake is ready, the server is the current one, the event is unseen, its thread is not marked, its number is the next one, and its payload fits: same thread, known item or turn, unchanged request, text within the limit, as spelled out per payload |
| `TimelineEffects.RefusedEventReports` | src/stores/timelineReducer.ts:570-727 | otherwise the first failing check decides the outcome and the one mark: handshake, duplicate, other server, marked, late, gap, or a payload that refers to something missing or is invalid |
| `TimelineEffects.ItemEventStores` | src/stores/timelineReducer.ts:460-478 | an applied item event stores the item whole, with its owner and exact counter, and lists it once, at the end when new; turns and approvals stay |
| `TimelineEffects.DeltaEventAppends` | src/stores/timelineReducer.ts:657-673 | an applied delta is appended to the text of its item and its length added to the counter; nothing else changes |
| `TimelineEffects.TurnEventStores` | src/stores/timelineReducer.ts:429-458 | an applied turn is stored and its thread shows waiting, running or idle and the active turn, status by status; everything else stays |
| `TimelineEffects.ThreadEntryStores` | src/stores/timelineReducer.ts:597-606 | an applied thread entry replaces the entry, with the number of the event |
| `TimelineEffects.RequestEventStores` | src/stores/timelineReducer.ts:507-516 | an applied approval request stores its summary, keeps a stored decision and its time, and leaves all other approvals alone |
| `TimelineEffects.ResolutionEventStores` | src/stores/timelineReducer.ts:546-564 | the first resolution of an approval stores exactly its decision and time beside the summary; a later one changes no approval |
| `TimelineEffects.ToolEventStores` | src/stores/timelineReducer.ts:592-727 | a tool event only counts |
| `TimelineEffects.DecisionIsFinal` | src/stores/timelineReducer.ts:546-564 | along every run a stored decision and its time never change until a snapshot of the thread is installed or a status clears the entities |
| `TimelineEffects.TextIsStreamed` | src/stores/timelineReducer.ts:657-673 | along every admissible run, while an item is not replaced and its thread not reinstalled, its text is the starting text with all applied deltas of that item appended in order, and nothing else of it changes |
| `TimelineEffects.StatusStores` | src/stores/timelineReducer.ts:186-211 | which statuses are accepted, the phase, generation, server and runtime they leave, and when they clear every entity |
| `TimelineEffects.SnapshotAppliedIff` | src/stores/timelineReducer.ts:314-393 | a snapshot is applied if and only if the handshake is ready with its server or none, its number is its thread entry's, its items are distinct, none is held by another thread of the same server, its history page fits and its texts are within the limit |
| `TimelineEffects.HistoryIff` | src/stores/timelineReducer.ts:343-366 | a history page fits if and only if every entry is of this thread and server, the numbers rise strictly from above zero to at most the snapshot's, and the last is below the next number offered |
| `TimelineEffects.SnapshotStores` | src/stores/timelineReducer.ts:374-427 | an applied snapshot leaves its entry, number and item order for its thread, drops the thread's turns, approvals and mark, and sets the server |
| `TimelineEffects.SnapshotItemsStored` | src/stores/timelineReducer.ts:394-405 | afterwards its items are held as given, with owner and exact counter, and every other item held was held before by another thread |
| `TimelineEffects.RuntimeEventAppliedIff` | src/stores/timelineReducer.ts:729-777 | when a runtime event is applied, by server, fingerprint and the seven statuses the wire allows |
| `TimelineEffects.RuntimeEventStores` | src/stores/timelineReducer.ts:729-777 | an applied runtime event shows its status, learns the server if unknown, and touches no entity, number or mark |
| `TimelineRuns.AcceptedSnapshotKeepsInv` | src/stores/timelineReducer.ts:374-427 | replacing a thread by an accepted snapshot keeps the whole invariant under the two hypotheses |
| `TimelineInvariant.RememberKeepsWindow` | src/stores/timelineReducer.ts:253-272 | remembering an unseen fingerprint slides that scope's window of 1024 and keeps the set equal to the union of the windows |
| `TimelineInvariant.ClearingIsExact` | src/stores/timelineReducer.ts:239-251 | clearing a scope forgets exactly its fingerprints |
| `TimelineInvariant.ClearKeepsWindow` | src/stores/timelineReducer.ts:239-251 | after clearing, the set is the union of the remaining windows |
| `TimelineInvariant.RemovalIsExact` | src/stores/timelineReducer.ts:274-308 | removing a thread drops exactly its items and turns, empties its order list and leaves every remaining item, owner, counter and turn as it was |
| `TimelineInvariant.RemoveKeepsStructure` | src/stores/timelineReducer.ts:274-308 | after the removal the item indexes, order lists and turn alignment still hold |
| `TimelineInvariant.ApplyTurnKeepsStructure` | src/stores/timelineReducer.ts:429-458 | filing a turn whose items are on its thread keeps the structure |
| `TimelineInvariant.ApplyDeltaKeepsStructure` | src/stores/timelineReducer.ts:657-673 | appending a delta keeps the item indexes, orders and turn alignment |
| `TimelineExact.SnapshotKeepsTurnsIff` | src/stores/timelineReducer.ts:314-336 | an installed snapshot keeps turns and threads aligned if and only if it names no turn held by another thread |
| `TimelineExact.SnapshotKeepsOrderIff` | src/stores/timelineReducer.ts:314-341 | an installed snapshot keeps the order lists exact if and only if it takes no item from another thread |
| `TimelineExact.UnanchoredSnapshotSteals` | src/stores/timelineReducer.ts:195-203 | after any ready or busy status without a server instance, an accepted snapshot naming an item of another thread breaks the order lists, for every such state and snapshot |
| `TimelineExact.OrderBreaksWithoutServerId` | src/stores/timelineReducer.ts:186-215 | a four-action run from the empty timeline in which this happens |
| `TimelineExact.TurnsBreakOnForeignTurn` | src/stores/timelineReducer.ts:374-427 | a three-action run in which a snapshot naming another thread's turn breaks the alignment |
| `TimelineLog.AppliedEventsAreConsecutive` | src/stores/timelineReducer.ts:570-592 | since a thread's last baseline the applied events have exactly consecutive sequence numbers ending at the stored one, and the thread's own copy equals it |
| `TimelineLog.DedupWindowIsExact` | src/stores/timelineReducer.ts:233-268 | each scope's list is the last min(1024, n) fingerprints remembered since the scope was cleared, and a fingerprint is seen if and only if it is in its scope's list |
| `TimelineLog.RedeliveryIsNeverApplied` | src/stores/timelineReducer.ts:576-591 | an event applied since the baseline is never applied again, even after eviction; redelivered while remembered and ready it changes only the outcome |
| `TimelineLog.CounterIsExactUnlessJoined` | src/stores/timelineReducer.ts:657-673 | the cached counter is the UTF-8 length of the text plus two for every surrogate pair that a delta joined, hence at least the length, and at most 1,048,576 |
| `TimelineLog.LatchedThreadIsFrozen` | src/stores/timelineReducer.ts:570-592 | once a thread is marked for resync no run changes its projection until a snapshot of it succeeds or a status clears the entities |
| `TimelineLog.RunTracksLog` | src/stores/timelineReducer.ts:186-787 | any run keeps sequence numbers, windows and counters in step with the recorded history |
| `Utf8.ByteLengthOfConcat` | src/stores/timelineReducer.ts:217-219 | the byte length of a concatenation is the sum of the lengths, less two when a surrogate pair is joined across the boundary |
| `Utf8.ByteLengthIsEncoded` | src/stores/timelineReducer.ts:217-219 | the counted length is the number of bytes of the UTF-8 encoding of the text, pairs joined and lone surrogates replaced |
| `Utf8.EncodedDecodes` | src/stores/timelineReducer.ts:217-219 | that encoding decodes to the same characters |
| `TimelineResync.SnapshotEstablishesAgreement` | src/stores/timelineReducer.ts:374-427 | an accepted snapshot that holds another run's item projection brings item order, contents and sequence number into agreement with that run |
| `TimelineResync.EventKeepsAgreement` | src/stores/timelineReducer.ts:570-727 | an event applied on both sides keeps the agreement although byte counters may differ |
| `TimelineResync.AgreementPersists` | src/stores/timelineReducer.ts:570-727 | two agreeing runs that apply the same events of the thread, interleaved with anything else, agree at every later point |
| `TimelineResync.ResyncConverges` | src/stores/timelineReducer.ts:374-427 | resync soundness: recovery by a snapshot of the other run followed by the same events ends in agreement |
| `TimelineLoops.ClearSeen` | src/stores/timelineReducer.ts:239-251 | the loop computes the specified clearing of a scope |
| `TimelineLoops.Remember` | src/stores/timelineReducer.ts:253-272 | the loop computes the specified sliding window |
| `TimelineLoops.RemoveThread` | src/stores/timelineReducer.ts:274-312 | the deletion loops, in any key order, compute the specified removal |
| `TimelineLoops.SnapshotStructureOk` | src/stores/timelineReducer.ts:314-341 | the loops accept exactly the structurally valid snapshots |
| `TimelineLoops.SnapshotEventsOk` | src/stores/timelineReducer.ts:343-366 | the loop accepts exactly the snapshots with valid recent events |
| `TimelineLoops.SnapshotTextsOk` | src/stores/timelineReducer.ts:387-389 | the loop accepts exactly the snapshots whose texts fit the limit |
| `TimelineLoops.FileItems` | src/stores/timelineReducer.ts:394-405 | the filing loop writes exactly the snapshot's items, owners, counters and identifiers |
| `TimelineLoops.ReplaceThread` | src/stores/timelineReducer.ts:374-427 | the whole of applySnapshot with its loops computes the specified state |
| `TimelineLoops.TurnItemsOk` | src/stores/timelineReducer.ts:489-505 | the loop over the other threads' lists and the check of every item of the turn decide whether any of its items is on another thread |
| `ReadyGate.SendingIsNeverObserved` | src-tauri/src/agent_process/session.rs:203-262 | in every interleaving, installs racing with anything included: the barrier is Sending exactly while the send guard is alive, and no reset, claim, promotion, wait or second send ever looks at it then |
| `ReadyGate.DisciplinedRunsPromoteOnce` | src-tauri/src/agent_process/session.rs:875-975 | installs are five separate stores interleaved with everything; in every run whose installs start safely and in which no notify takes initialized_sent during one: the ready slot is granted at most once per install, each time on an open session behind a barrier confirmed by a send of that install, and each promotion follows such a grant, has its frame checked, echoes the installed challenge on an open session behind a successful send begun after that install, and no challenge is promoted twice |
| `ReadyGate.SingleInstallPromotesOnce` | src-tauri/src/agent_process/session.rs:916-975 | a session that is given one challenge promotes it justly and at most once in every interleaving in which no notify takes initialized_sent before the install has returned, and the confirmed frame before it carried that very challenge |
| `ReadyGate.InstallIsSafeIff` | src-tauri/src/agent_process/session.rs:875-903 | with no notify taking the flag during the stores, every continuation promotes the new challenge justly and at most once if and only if the install started on a closed session, or on a barrier neither confirmed nor being sent with the writer stopped or no initialized frame under way |
| `ReadyGate.RacingInstallIsSafeIff` | src-tauri/src/agent_process/session.rs:875-903 | with notify calls racing the stores, the same holds if and only if the session is closed or its writer has stopped behind an unconfirmed barrier |
| `ReadyGate.UnsafeInstallBreaks` | src-tauri/src/agent_process/session.rs:875-975 | from every other state some continuation promotes the new challenge twice, or for a send that is not its own |
| `ReadyGate.RacingNotifyBreaks` | src-tauri/src/agent_process/session.rs:784-799 | from every open session with a running writer, even one an install may safely start from, a notify between two of the stores leads to a double promotion |
| `ReadyGate.InstallOvertakesPromotion` | src-tauri/src/agent_process/session.rs:875-975 | a run from a fresh session in which a second install overtakes a checked promotion, so that the first challenge is promoted under the second |
| `ReadyGate.NotifyInsideInstallPromotesTwice` | src-tauri/src/agent_process/session.rs:784-799 | a run from a fresh session in which a notify inside its only install makes that challenge be promoted twice |
| `ReadyGate.StaleNotifyConfirms` | src-tauri/src/agent_process/session.rs:784-799 | a disciplined run with two installs in which a notify compared with the first challenge is sent under the second and confirms the barrier for its promotion |
| `ReadyShared.HandshakeCells.Install` | src-tauri/src/agent_process/session.rs:888-899 | the five stores of an install run one after the other without interruption, and the state they leave |
| `ReadyShared.HandshakeCells.ResetBarrier` | src-tauri/src/agent_process/session.rs:193-200 | the reset alone, which needs the barrier's mutex |
| `ReadyShared.HandshakeCells.BeginSend` | src-tauri/src/agent_process/session.rs:203-216 | a guard is admitted exactly from the unsent barrier, which it moves to Sending |
| `ReadyShared.HandshakeCells.Complete` | src-tauri/src/agent_process/session.rs:274-293 | completing or dropping the guard always leaves Confirmed or Failed |
| `ReadyShared.HandshakeCells.ClaimReady` | src-tauri/src/agent_process/session.rs:258-269 | the claim is answered with yes if and only if the session is open, the barrier confirmed and the slot free, and then the slot is taken |
| `RequestIds.RequestIdIsInjective` | src-tauri/src/agent_process/session.rs:356-371 | different counters never render to the same identifier |
| `RequestIds.AllocateIsFresh` | src-tauri/src/agent_process/session.rs:356-371 | an allocation yields a never-seen identifier and fails only once 8192 have been issued |
| `RequestIds.OutboundRequestLedger.AllocateId` | src-tauri/src/agent_process/session.rs:356-371 | the new ledger and the identifier, or the refusal |
| `RequestIds.InboundServerRequests.Register` | src-tauri/src/agent_process/session.rs:384-398 | accepts exactly the new requests within the bounds and otherwise changes nothing |
| `RequestIds.InboundServerRequests.Resolve` | src-tauri/src/agent_process/session.rs:400-408 | takes an active request once and otherwise changes nothing |
| `RequestIds.ServerRequestsAnsweredAtMostOnce` | src-tauri/src/agent_process/session.rs:384-408 | in every run each accepted server request is answered at most once, only answered or active identifiers are known, and the bounds hold |
| `RequestIds.InboundOutcomes` | src-tauri/src/agent_process/session.rs:384-408 | in every run the fate of the next arrival and the next answer follows from the history: accepted the first time with room for another open request and fewer than 8192 accepted, each refusal with its own reason; answered exactly once after acceptance |
| `Pending.PendingRegistry.RegisterRequest` | src-tauri/src/agent_process/pending.rs:80-101 | refuses duplicates before the bound, and otherwise adds exactly one entry |
| `Pending.PendingRegistry.ResolveFrame` | src-tauri/src/agent_process/pending.rs:104-113 | delivers to an active request once, and otherwise classifies by the tombstones and changes nothing |
| `Pending.PendingRegistry.Expire` | src-tauri/src/agent_process/pending.rs:116-132 | ends exactly the requests whose deadline has come, each with one timeout |
| `Pending.PendingRegistry.Cancel` | src-tauri/src/agent_process/pending.rs:135-142 | ends exactly the named request if it is active |
| `Pending.PendingRegistry.CloseAll` | src-tauri/src/agent_process/pending.rs:145-154 | ends every active request, once |
| `Pending.PendingRegistry.RememberEnd` | src-tauri/src/agent_process/pending.rs:172-180 | the loop drops an older tombstone of the identifier and then the oldest ones until there is room |
| `Pending.PendingRegistry.FindTombstone` | src-tauri/src/agent_process/pending.rs:157-169 | the search classifies by the first matching tombstone |
| `Pending.FinishTracks` | src-tauri/src/agent_process/pending.rs:172-180 | ending an active request keeps the tombstones the last max_tombstones entries of the termination history, with distinct identifiers disjoint from the active ones |
| `Pending.FinishAllTracks` | src-tauri/src/agent_process/pending.rs:116-154 | so does ending any number of them in any order |
| `Pending.FinishAllActive` | src-tauri/src/agent_process/pending.rs:116-154 | ending listed requests removes exactly those and leaves every other deadline alone |
| `Pending.BoundedClassificationAgrees` | src-tauri/src/agent_process/pending.rs:157-169 | inside the window the bounded classification is the one of the unbounded history; outside it is UnknownRequest |
| `PendingSession.AdmitIsNeverDuplicate` | src-tauri/src/agent_process/session.rs:657-693 | a freshly allocated identifier is never refused as a duplicate by the registry |
| `PendingSession.EveryRequestCompletesAtMostOnce` | src-tauri/src/agent_process/session.rs:657-705 | in every run: active and buried identifiers were issued by the ledger, no registration is a duplicate, and every request gets at most one completion |
| `PendingSession.CompletionsHaveTheirOwnCause` | src-tauri/src/agent_process/pending.rs:104-154 | a completion is caused by the response, deadline, cancel or close of that very request, which was still waiting |
| `PendingSession.LateResponseIsInert` | src-tauri/src/agent_process/pending.rs:157-180 | a response to an ended request changes nothing, inside the tombstone window or after eviction, and is classified accordingly |
| `PendingOutcomes.RegisterIff` | src-tauri/src/agent_process/pending.rs:80-101 | a registration succeeds if and only if its identifier is neither active nor buried and there is room, and then adds exactly that entry; a repeated identifier is reported before a full registry |
| `PendingOutcomes.AdmitIffRoom` | src-tauri/src/agent_process/session.rs:657-693 | an issued identifier is admitted if and only if there is room |
| `PendingOutcomes.TickEndsTheDue` | src-tauri/src/agent_process/pending.rs:116-132 | after a tick exactly the requests with a later deadline wait on, and exactly the others have been told of their timeout |
| `PendingOutcomes.ShutEndsAll` | src-tauri/src/agent_process/pending.rs:145-154 | after a close nothing waits and everything that waited has been told |
| `PendingOutcomes.OneRequestEnds` | src-tauri/src/agent_process/pending.rs:104-142 | a response or a cancellation ends the request it names with one completion, and no other |
| `PendingOutcomes.RegistryIsBounded` | src-tauri/src/agent_process/pending.rs:60-78 | which limits are allowed, and that every run stays within them |
| `PendingOutcomes.EveryRequestIsWaitingOrTold` | src-tauri/src/agent_process/session.rs:657-705 | along every run a request is waiting or has been told exactly one outcome, never both, if and only if it was admitted |
| `EventQueue.PushKeepsInv` | src-tauri/src/agent_process/events.rs:94-164 | a push keeps every byte counter the exact sum of its lane, lane lengths and shared byte budgets within bounds, and the server lane free of anything but server requests |
| `EventQueue.PopKeepsInv` | src-tauri/src/agent_process/events.rs:167-208 | so does a pop |
| `EventQueue.PopServerKeepsInv` | src-tauri/src/agent_process/events.rs:230-243 | so does taking a server request |
| `EventQueue.CloseKeepsInv` | src-tauri/src/agent_process/events.rs:273-290 | so does close |
| `EventQueue.EventQueue.PushEvent` | src-tauri/src/agent_process/events.rs:94-164 | the whole new state of a push, refused or accepted |
| `EventQueue.EventQueue.PopPass` | src-tauri/src/agent_process/events.rs:167-208 | the returned event and the whole new state of one scheduling pass (which lane that is: EventOrder.PopMeaning) |
| `EventQueue.EventQueue.PopServerPass` | src-tauri/src/agent_process/events.rs:230-243 | the returned request and the whole new state |
| `EventQueue.EventQueue.CloseQueue` | src-tauri/src/agent_process/events.rs:273-290 | the state after close: only terminal control events stay |
| `EventQueue.RetainTerminal` | src-tauri/src/agent_process/events.rs:273-290 | the loop keeps exactly the terminal events, in order, with their byte total |
| `EventOrder.PopMeaning` | src-tauri/src/agent_process/events.rs:167-208 | on the queue's fields: an unreported fatal kind comes first; then data if and only if it waits and either the burst counter is at least 8 or both other lanes are empty; then server requests; control only behind an empty server lane; nothing if and only if all are empty; and what each leaves behind |
| `EventOrder.PopServerMeaning` | src-tauri/src/agent_process/events.rs:230-243 | taking a server request returns the head of that lane, counts towards the burst and touches nothing else |
| `EventOrder.PushAccepts` | src-tauri/src/agent_process/events.rs:94-164 | an event with a free place and exact byte room is appended to its lane and only that lane's counter changes |
| `EventOrder.PushRefuses` | src-tauri/src/agent_process/events.rs:120-145 | an event without room is dropped: a control event leaves its own kind as the fatal one unless one is pending, the first data event a notice or the control kind, later ones nothing |
| `EventOrder.LanesHoldWithinBudget` | src-tauri/src/agent_process/events.rs:46-63 | in every run the encoded frames and lines held by the lanes stay within the byte budgets, and a lane whose budget is one frame never holds a frame that does not encode |
| `EventOrder.OthersKeepTheirShare` | src-tauri/src/agent_process/events.rs:167-243 | in every run in which each pop finds a server request or control event waiting, eight times the data deliveries are at most the other deliveries plus the burst spent |
| `EventOrder.EightBetweenDataDeliveries` | src-tauri/src/agent_process/events.rs:167-243 | between two data deliveries with others waiting throughout there are at least eight other deliveries |
| `EventOrder.ControlIsNotStarved` | src-tauri/src/agent_process/events.rs:167-243 | a control event outlasts at most those ahead of it, the server requests waiting or accepted meanwhile, and one data event for every eight of these and one more |
| `EventOrder.ServerRequestsHoldBackControl` | src-tauri/src/agent_process/events.rs:184-199 | those server requests cannot be left out: a new one before each pop holds the control lane back for any number of pops |
| `EventOrder.RetainOfConcat` | src-tauri/src/agent_process/events.rs:273-290 | what close keeps of a lane is a filter, event by event and in order |
| `EventOrder.CloseMeaning` | src-tauri/src/agent_process/events.rs:273-290 | close empties the request and data lanes and drops from the control lane exactly notices, stderr and ordinary notifications |
| `EventRuns.QueueAccountsExactly` | src-tauri/src/agent_process/events.rs:94-290 | in every reachable state: exact counters and budgets, delivered plus queued is the accepted sequence of each lane until close, a refused control event leaves a fatal notice pending or reported, a refused data event is reported, and at most one overflow notice and one fatal notice are ever produced |
| `EventRuns.StepAdvances` | src-tauri/src/agent_process/events.rs:167-208 | no step but close lets a waiting data event fall back, and every delivery brings it closer |
| `EventRuns.DataIsNotStarved` | src-tauri/src/agent_process/events.rs:167-243 | the data event at any position is delivered, in its place, within a bounded number of deliveries, whatever is pushed meanwhile |
| `EventRuns.HeadIsReturnedWithinNine` | src-tauri/src/agent_process/events.rs:167-208 | the same counted in events returned by pop |
| `EventRuns.HeadIsReturnedWithinNineCalls` | src-tauri/src/agent_process/events.rs:167-208 | while the queue is not closed, a data event at the head is returned within nine pop calls, the single fatal notice not counted, for any mix of pushes and server-request pops |
| `EventRuns.PopNeverIdlesOverData` | src-tauri/src/agent_process/events.rs:167-208 | while data waits every pop returns something, so that only the single fatal notice may add a call |
| `FrameReader.ReadFrame` | src-tauri/src/agent_process/codec.rs:1012-1048 | over any chunking the result is that of splitting the stream at its first LF: decode of exactly that line with exactly it consumed, or the too-large, partial, end or failure verdict of the stream |
| `FrameReader.ChunkingIsInvisible` | spikes/protocol/src/lib.rs:158-199 | two chunkings of one stream give the same result, the host's too-large length aside; the spike's errors are identical |
| `FrameReader.FramesReadBack` | src-tauri/src/agent_process/codec.rs:1012-1048 | a concatenation of complete frames is split into exactly those frames, then end of input |
| `FrameReader.LineFound` | src-tauri/src/agent_process/codec.rs:1025-1036 | what an LF in the next chunk means for the whole stream |
| `FrameReader.FirstLfIsFirst` | src-tauri/src/agent_process/codec.rs:1025-1025 | the position is an LF with none before it |
| `TokenMarkers.RawScan.Visit` | src-tauri/src/agent_process/codec.rs:600-626 | the recursive scan with its shared path stack computes the specified finding and leaves the stack as it was |
| `TokenMarkers.ScanOfRoot` | src-tauri/src/agent_process/codec.rs:600-637 | with nothing allowed the scan finds exactly the values with a marker; allowing the handshake path is the same as first removing params.readyToken |
| `FrameRoundTrip.WireDecodes` | src-tauri/src/agent_process/codec.rs:376-424 | decoding an encoded object gives the frame with a null result made explicit and error data reduced to its classifier, and it is classified as the sender classified it (what kind that is: FrameKinds.KindByShape) |
| `FrameRoundTrip.RoundTripIffWellFormed` | src-tauri/src/agent_process/codec.rs:376-594 | the round trip returns the same frame if and only if its result is missing or a value and its error data is exactly the classifier |
| `FrameRoundTrip.BuiltIsWellFormed` | src-tauri/src/agent_process/codec.rs:244-337 | every constructor yields such a frame |
| `FrameRoundTrip.DecodedIsWellFormed` | src-tauri/src/agent_process/codec.rs:521-594 | so does decoding |
| `FrameRoundTrip.DecodedFramesEncode` | src-tauri/src/agent_process/codec.rs:521-594 | a frame accepted from the wire is never refused by the encoder's guards and comes back the same |
| `FrameRoundTrip.ErrorParses` | src-tauri/src/agent_process/codec.rs:763-798 | the object of a checked error parses to the same code and message and to its classifier |
| `FrameSecrecy.OnlyHandshakeFramesCarryTokens` | src-tauri/src/agent_process/codec.rs:408-418 | an encoded object carries something token-shaped if and only if it is one of the two handshake frames, and then only at params.readyToken |
| `FrameSecrecy.BuiltFramesEncodeIff` | src-tauri/src/agent_process/codec.rs:376-424 | a constructed frame passes the encoder's guards if and only if its method name is not token-shaped, and then decodes to itself |
| `FrameSecrecy.InitializedResetIsUnreachable` | src-tauri/src/agent_process/session.rs:652-681 | a request named initialized is refused before it is encoded, so the reset of initialized_sent is never reached, and no prepared request carries a marker |
| `FrameKinds.KindByShape` | src-tauri/src/agent_process/codec.rs:453-478 | an accepted frame is a response if and only if it has no method, a notification if and only if it has a method and no identifier, a client request if and only if it has a method and an identifier beginning with c:, a server request likewise with s:; and it has the fields of that shape |
| `FrameKinds.AcceptedIff` | src-tauri/src/agent_process/codec.rs:427-480 | exactly which frames are accepted, by shape, names, place of tokens and, for errors, the catalog |
| `FrameKinds.RefusalReason` | src-tauri/src/agent_process/codec.rs:427-480 | why a frame is refused: invalid identifier, handshake failure, error catalog or envelope, each exactly when |
| `FrameKinds.TokenRule` | src-tauri/src/agent_process/codec.rs:640-675 | params pass if and only if initialized holds the challenge and nothing else, a ready status holds it and is otherwise free of markers, and any other message is free of markers |
| `FrameKinds.ChallengesAreMarked` | src-tauri/src/agent_process/codec.rs:600-637 | every challenge is a text the audit looks for |
| `FrameKinds.IdsSplitAtColon` | src-tauri/src/agent_process/codec.rs:499-518 | an identifier is valid if and only if what precedes its first colon is c or s and what follows has 1 to 96 characters, the first alphanumeric |
| `FrameKinds.TextLimits` | src-tauri/src/agent_process/codec.rs:436-450 | names have 1 to 128 bytes, messages 1 to 512, classifiers 3 to 64 ASCII characters, and challenges are exactly the lower-case texts the audit looks for |
| `FrameKinds.AllocatedIdsAreValid` | src-tauri/src/agent_process/session.rs:356-371 | every identifier the ledger can allocate is valid and of the client's namespace |
| `FrameKinds.NewRequestIff` | src-tauri/src/agent_process/codec.rs:244-285 | a request is built if and only if its identifier is valid and of the namespace asked for, its name is valid, and its params are an object with tokens in place |
| `FrameKinds.NewNotificationIff` | src-tauri/src/agent_process/codec.rs:288-299 | the same for a notification, without identifier |
| `FrameKinds.NewResultIff` | src-tauri/src/agent_process/codec.rs:301-312 | a result is built if and only if its identifier is valid and its value free of markers |
| `FrameKinds.NewErrorIff` | src-tauri/src/agent_process/codec.rs:314-337 | an error response is built if and only if code, message and classifier are admitted and the classifier is not token-shaped |
| `FrameKinds.HostRequestsGetThrough` | src-tauri/src/agent_process/session.rs:657-683 | for every allocated identifier, valid name and plain params the client request is built, and unless its name looks like a challenge it is encoded and decodes to itself |
| `FrameKinds.ForbiddenIff` | src-tauri/src/agent_process/session.rs:1114-1135 | params are refused if and only if they hold a marker or mention one of this host's challenges as a string or key at any depth |
| `FrameKinds.RequestIsPreparedIff` | src-tauri/src/agent_process/session.rs:652-681 | the fate of a call in order: secret params, no request of this host, a name like a challenge, each exactly when; everything else is ready and decodes to the request |
| `FrameKinds.DecodedShape` | src-tauri/src/agent_process/codec.rs:521-594 | a decoded frame is its root object field by field, with version 2.0, and the object is free of markers off the legal place |
| `FrameKinds.DecodeAcceptsIff` | src-tauri/src/agent_process/codec.rs:521-594 | exactly which root objects are accepted: version 2.0, the request or notification shape with tokens in place or the response shape with an admitted error, and no marker elsewhere, whatever other fields there are |
| `FrameKinds.MarkersAreRefused` | src-tauri/src/agent_process/codec.rs:600-637 | a marker anywhere else refuses the object, as a handshake failure if it is a handshake frame |
| `FrameKinds.DecodedLineShape` | src-tauri/src/agent_process/codec.rs:521-541 | a decoded line has one LF, at its end, no CR before it, and a payload of 1 to max bytes |
| `FrameKinds.LineRefusals` | src-tauri/src/agent_process/codec.rs:521-541 | why a line is refused before it is parsed, each exactly when |
| `FrameStream.EncodedDecodes` | src-tauri/src/agent_process/codec.rs:419-424 | if the JSON library treats the frame's own wire object faithfully, its encoding is one complete line within the limit that decodes to the canonical frame |
| `FrameStream.StreamReadsBack` | src-tauri/src/agent_process/codec.rs:1012-1048 | concatenated encodings read back as the same number of frames in the same order, each canonical and each itself when well-formed, then end of input |
| `FrameStream.ReadStream` | src-tauri/src/agent_process/wire.rs:382-419 | the reader loop over any chunks returns exactly the frames that reading the stream line by line accepts, and the fault at which that ends |
| `FrameStream.ReadBack` | src-tauri/src/agent_process/wire.rs:382-419 | on a stream of encoded frames it returns exactly those frames, then end of input |
| `Timestamp.ValidTimestamp` | src-tauri/src/agent_process/handshake.rs:298-358 | the loops decide the specified acceptance and never index out of range |
| `Timestamp.AcceptsIffRendered` | src-tauri/src/agent_process/handshake.rs:298-383 | accepted are exactly the texts of at most 64 bytes rendered from a valid Gregorian date, hour, minute, second up to 60, optional nonempty fraction and Z or numeric offset |
| `Timestamp.CalendarIsGregorian` | src-tauri/src/agent_process/handshake.rs:374-383 | the accepted dates are those whose Gregorian day count, a formula without month lengths or leap rule, stays below the first of the next month |
| `Timestamp.MonthLengths` | src-tauri/src/agent_process/handshake.rs:374-383 | the month lengths are the differences of that day count, for every year |
| `Timestamp.AcceptedIsRendered` | src-tauri/src/agent_process/handshake.rs:298-358 | everything accepted is the rendering of the date-time read from it |
| `Timestamp.RenderedIsAccepted` | src-tauri/src/agent_process/handshake.rs:298-358 | every valid rendering is accepted and read back |
| `Timestamp.RenderIsInjective` | src-tauri/src/agent_process/handshake.rs:298-358 | no accepted text stands for two date-times |
| `Timestamp.DigitsOfValue` | src-tauri/src/agent_process/handshake.rs:368-372 | the decimal value of a digit string renders back to that string |
| `Lifecycle.NewMachine` | src-tauri/src/agent_process/lifecycle.rs:44-115 | a machine is created exactly for a policy with at least one attempt and 0 < base <= max <= one hour, and then in Exited |
| `Lifecycle.LifecycleMachine.BeginStart` | src-tauri/src/agent_process/lifecycle.rs:133-152 | the result and the whole new state of a start |
| `Lifecycle.LifecycleMachine.MarkReady` | src-tauri/src/agent_process/lifecycle.rs:155-162 | accepted exactly for the current starting generation |
| `Lifecycle.LifecycleMachine.MarkExited` | src-tauri/src/agent_process/lifecycle.rs:197-208 | accepted exactly for the current generation outside the terminal states |
| `Lifecycle.LifecycleMachine.RecordCrash` | src-tauri/src/agent_process/lifecycle.rs:233-273 | the whole new state after a crash report (the deadline it sets: LifecycleDeadlines.DeadlinesFollowTheStreak) |
| `LifecycleRuns.StaleCallsChangeNothing` | src-tauri/src/agent_process/lifecycle.rs:155-273 | a call for another generation changes nothing |
| `LifecycleRuns.TerminalIsForever` | src-tauri/src/agent_process/lifecycle.rs:133-273 | Faulted and Incompatible are never left as a pair, and nothing is started or charged any more |
| `LifecycleRuns.EachGenerationIsChargedOnce` | src-tauri/src/agent_process/lifecycle.rs:233-273 | charged crashes belong to strictly increasing generations, so none is charged twice |
| `LifecycleRuns.AttemptsFollowCharges` | src-tauri/src/agent_process/lifecycle.rs:247-258 | along any run the attempt counter counts the charges since the last stable window, a charge is a fault exactly when it exceeds max_attempts, and it is then the last one |
| `LifecycleRuns.RestartsAreBounded` | src-tauri/src/agent_process/lifecycle.rs:247-258 | without a crash after a stable window Backoff is entered at most max_attempts times and the next crash is terminal |
| `LifecycleRuns.DelayDoubles` | src-tauri/src/agent_process/lifecycle.rs:259-265 | the first delay is the base and each further one doubles up to the maximum |
| `LifecycleRuns.DelayIsBoundedAndMonotone` | src-tauri/src/agent_process/lifecycle.rs:259-271 | delays lie in [base, max] and never shrink with the attempt, in nanoseconds and in whole milliseconds |
| `LifecycleDeadlines.DeadlinesFollowTheStreak` | src-tauri/src/agent_process/lifecycle.rs:233-273 | for every run and every k: the k-th charge since the last stable window leaves attempt k, faults if and only if that exceeds max_attempts, and otherwise leaves the deadline at its clock reading plus the whole milliseconds of min(base * 2^(k-1), max), the exponent capped at 31 and the sum at 2^64-1, read off the machine after the step |
| `LifecycleDeadlines.DeadlinesAreBounded` | src-tauri/src/agent_process/lifecycle.rs:259-271 | along every run a deadline lies between its reading plus base and its reading plus max, at most an hour ahead, as far as the clock goes |
| `LifecycleDeadlines.DelaysNeverShrinkInAStreak` | src-tauri/src/agent_process/lifecycle.rs:233-273 | along every run, deadline minus reading of a crash without a stable window since the one before is at least that of the one before, unless the deadline is the end of the clock |
| `LifecycleDeadlines.StatesHaveCauses` | src-tauri/src/agent_process/lifecycle.rs:133-273 | each state is entered by its own calls only, for the current generation and from the right states, and a call that enters none changes nothing |
| `LifecycleDeadlines.ForgivenAfterHalfAMinute` | src-tauri/src/agent_process/lifecycle.rs:247-252 | along every run, a charge restarts the count only if a ready report of its own generation is at least 30 s old, and otherwise counts on |
| `LifecycleRuns.StartsIff` | src-tauri/src/agent_process/lifecycle.rs:133-152 | a start succeeds exactly from Exited or from Backoff at its deadline; otherwise nothing changes, the wait reported is exact by the second clock reading, and every other state has its own refusal |
| `LifecycleRuns.StartSkipsBackoffIffExitReported` | src-tauri/src/agent_process/lifecycle.rs:197-208 | a start before the deadline succeeds if and only if the exit of the crashed generation was reported in between |
| `LifecycleRuns.ExitReportSkipsBackoff` | src-tauri/src/agent_process/lifecycle.rs:197-208 | a concrete run in which the first 100 ms delay is skipped |
| `Handshake.ReadyHandshake.AcceptInitialized` | src/ipc/handshake.ts:211-225 | the whole new state after a client challenge |
| `Handshake.ReadyHandshake.AcceptRuntimeStatus` | src/ipc/handshake.ts:228-247 | the whole new state after a status |
| `Handshake.RunTracksHistory` | src/ipc/handshake.ts:97-157 | in every run with starts and disconnects anywhere: the history is the last 64 admitted challenges, none is admitted while it is among them, the generation counts admissions, and a waiting or ready owner expects the latest one |
| `Handshake.PerformTracks` | src/ipc/handshake.ts:97-247 | each call keeps this, and becomes ready only by echoing the latest admitted challenge while waiting for it |
| `HandshakeTrace.ValidateHandshakeSequence` | contracts/golden/validate.py:220-280 | the loop decides the specified offline acceptance |
| `HandshakeTrace.OfflineIff` | contracts/golden/validate.py:220-280 | a trace of any length is accepted offline if and only if it keeps the order of challenge, echo and end and never reuses a challenge |
| `HandshakeTrace.OnlineIff` | src/ipc/handshake.ts:97-247 | a trace of any length is accepted online if and only if it keeps that order and no challenge repeats one of the 64 before it |
| `HandshakeOrder.WellOrderedIff` | contracts/golden/validate.py:220-280 | the order without an automaton: only ready echoes, every challenge comes first or right after a stopped or crashed, and its echo comes right after it and nowhere else, other frames aside |
| `HandshakeOrder.AcceptanceByMarks` | src/ipc/handshake.ts:97-247 | offline and online acceptance are that order with no challenge twice, at all or within 64 |
| `HandshakeOrder.NothingPassesWhileDown` | src/ipc/handshake.ts:200-209 | a disconnected or failed client refuses every handshake frame |
| `HandshakeOrder.StartBeginsAnew` | src/ipc/handshake.ts:189-198 | after a start at any moment a trace is judged as from the beginning, except that the last 64 challenges still count |
| `HandshakeTrace.OfflineAgreesWithOnline` | contracts/golden/validate.py:220-280 | offline acceptance implies online acceptance; up to 64 challenges the two are equivalent; in general offline is online plus global distinctness |
| `HandshakeTrace.LongTracesDisagree` | src/ipc/handshake.ts:97-99 | any 65 different challenges followed by the first one again are accepted online and rejected offline |
| `HandshakeTrace.FailureStays` | src/ipc/handshake.ts:105-108 | a failed handshake stays failed whatever it is fed |
| `Reordering.SequenceReducer.ApplyLive` | spikes/protocol/src/lib.rs:434-464 | the outcome and the whole new state of a live event |
| `Reordering.SequenceReducer.ApplySnapshot` | spikes/protocol/src/lib.rs:467-480 | the loop drops exactly the buffered events at or below the snapshot |
| `Reordering.SequenceReducer.DrainBuffered` | spikes/protocol/src/lib.rs:488-504 | the loop applies exactly the consecutive buffered events and reports the gap that stops it |
| `ReorderingRuns.RunAppliesOnce` | spikes/protocol/src/lib.rs:434-509 | in every run, backward snapshots included: the buffer is bounded and above the last number, its identifiers agree with it, and no event identifier is applied twice |
| `ReorderingRuns.StepAgrees` | spikes/protocol/src/lib.rs:434-509 | an operation applies only events with the consecutive next numbers |
| `ReorderingOutcomes.LiveOutcomeIff` | spikes/protocol/src/lib.rs:434-464 | in every run: duplicate exactly when the number has been passed or the identifier applied or buffered; applied exactly when new, next and its place free; gap exactly when ahead with room, naming the least waiting number; resync otherwise; and what each leaves |
| `ReorderingOutcomes.SnapshotMeaning` | spikes/protocol/src/lib.rs:467-480 | after a snapshot exactly the waiting events above it wait on, and the identifiers are exactly theirs |
| `ReorderingOutcomes.DrainMeaning` | spikes/protocol/src/lib.rs:488-504 | a drain takes out the waiting events up to the first missing number and leaves those behind it |
| `ReorderingOutcomes.DrainedAreTheBuffered` | spikes/protocol/src/lib.rs:488-504 | and applies them in the order of their numbers, as received |
| `ReorderingRuns.DeliveriesConverge` | spikes/protocol/src/lib.rs:434-509 | for any delivery order with repeats, drained after each and with room enough, the last number is always the longest delivered gap-free prefix and exactly the rest waits |
| `ReorderingRuns.OrderDoesNotMatter` | spikes/protocol/src/lib.rs:434-509 | the state depends only on which numbers were delivered |
| `ReorderingRuns.CompleteDeliveryApplies` | spikes/protocol/src/lib.rs:434-509 | once all of 1..n have come in, the state is that of in-order delivery |

## Left out

- JSON text: parsing, printing and UTF-8 decoding are the parameters of `Text` in `FrameStream`; they are assumed inverse to each other, with no LF inside and no CR at the end, on the wire objects of the frames at hand only.
- Error catalog and message scanner (`codec.rs:837-1010`, `codec_catalog.rs`): parameters of `Tables`; `BuiltFramesEncodeIff` assumes only that token-shaped messages are unsafe, which the scanner's run-of-32-hex rule gives.
- Debug redaction and version negotiation (`codec.rs:205-232`, `732-760`, `1051-1067`): straight-line code that would add easy members only.
- `FrameReader.ReadFrame`: the length in the host's too-large error depends on the chunking, as in the code; only the verdict and the bytes consumed are claimed to be independent of it.
- Ready gate: the promote closure itself, the public probe `ready_after_initialized_barrier` (the same steps without the closure) and the shutdown gate of `notify_with_gate`. A wait on the barrier's condition variable is a series of looks at it. Sequentially consistent atomics are assumed. Installs of malformed tokens, which are refused without any effect, are not steps.
- Waiting: condition variables and timeouts of the queue, the pending receivers and the writer are single passes or environment steps; the clock of the lifecycle machine is read through parameters.
- Event queue: the encoded length of an event and whether it is terminal are attributes of the event; byte budgets are below the top of the machine word. That server requests are pushed only with Control priority is a hypothesis, met by the reader (`wire.rs:477-482`).
- Pending registry: the channel to a waiter is the list of completions; a waiter that has gone away is not distinguished. Which of several due requests is ended first is left open, as it is in the hash map.
- Timeline: schema validation of payloads is one malformed payload; free-form thread and turn fields are one opaque detail. Fingerprints are triples instead of colon-joined texts, which is faithful because the identifiers contain no colon.
- `UnanchoredSnapshotSteals`: one direction; the exact condition on the snapshot itself is `SnapshotKeepsOrderIff`.
- Handshake: the fingerprint hash is a parameter assumed injective on the tokens of a trace; listeners, frozen copies and `assertFrameSafe` are not modelled. Statuses are the six of the wire; the validator's refusal of unknown ones has no counterpart in the typed client.
- `HandshakeTrace.OnlineIff`: assumes valid challenges in the trace, which the offline validator leaves to the schema.
- Lifecycle: `EachGenerationIsChargedOnce` excludes wrap-around of the 64-bit generation, and the restart budget excludes `max_attempts` of 2^32-1, where the saturating counter could never exceed it.
- Reorder buffer: `DeliveriesConverge` assumes that different numbers have different identifiers and that the buffer has room; without room the code asks for a resync.
- Wire writer, supervisor, process handling, configuration, UI, the IPC adapters and the legacy client: platform plumbing around the modelled core. The writer's use of the barrier follows `wire.rs:187-317`.
- The framing spike's own envelope decoder, bounded channel and pending registry, and the codec's limits: covered more strongly by the host's versions, or tables.
